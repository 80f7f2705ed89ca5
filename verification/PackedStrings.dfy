/** The packed string array: one flat buffer and the offsets between its strings, as a refinement of
    a sequence of strings. A character stands for one byte of storage. */
module PackedStrings {
  import opened Wrappers

  /** Offsets that start at 0, never go back, and end at the end of the storage. */
  ghost predicate Packed(offsets: seq<nat>, storage: string) {
    && |offsets| > 0 && offsets[0] == 0 && offsets[|offsets| - 1] == |storage|
    && forall i, j :: 0 <= i <= j < |offsets| ==> offsets[i] <= offsets[j]
  }

  /** The strings between consecutive offsets. */
  ghost function StringsOf(offsets: seq<nat>, storage: string): (ss: seq<string>)
    requires Packed(offsets, storage)
    ensures |ss| == |offsets| - 1
  {
    seq(|offsets| - 1, i requires 0 <= i < |offsets| - 1 => storage[offsets[i]..offsets[i + 1]])
  }

  /** The total length of some strings. */
  ghost function Total(ss: seq<string>): (n: nat) {
    if ss == [] then 0 else Total(ss[..|ss| - 1]) + |ss[|ss| - 1]|
  }

  ghost function Concat(ss: seq<string>): (s: string)
    ensures |s| == Total(ss)
  {
    if ss == [] then [] else Concat(ss[..|ss| - 1]) + ss[|ss| - 1]
  }

  lemma {:induction false} TotalAppend(a: seq<string>, b: seq<string>)
    ensures Total(a + b) == Total(a) + Total(b)
  {
    if b == [] {
      assert a + b == a;
    } else {
      TotalAppend(a, b[..|b| - 1]);
      assert (a + b)[..|a + b| - 1] == a + b[..|b| - 1];
    }
  }

  lemma PackedPrefix(offsets: seq<nat>, storage: string, n: nat)
    requires Packed(offsets, storage) && n < |offsets|
    ensures Packed(offsets[..n + 1], storage[..offsets[n]])
    ensures StringsOf(offsets[..n + 1], storage[..offsets[n]]) == StringsOf(offsets, storage)[..n]
  {
    var o, s := offsets[..n + 1], storage[..offsets[n]];
    forall i | 0 <= i < n ensures s[o[i]..o[i + 1]] == storage[offsets[i]..offsets[i + 1]] {
      assert offsets[i + 1] <= offsets[n];
    }
  }

  /** The representation is determined by the strings: their concatenation and its prefix lengths. */
  lemma {:induction false} PackedCanonical(offsets: seq<nat>, storage: string, n: nat)
    requires Packed(offsets, storage) && n < |offsets|
    ensures storage[..offsets[n]] == Concat(StringsOf(offsets, storage)[..n])
    ensures offsets[n] == Total(StringsOf(offsets, storage)[..n])
  {
    var ss := StringsOf(offsets, storage);
    if n != 0 {
      PackedCanonical(offsets, storage, n - 1);
      assert ss[..n][..n - 1] == ss[..n - 1];
      assert storage[..offsets[n]] == storage[..offsets[n - 1]] + ss[n - 1];
    }
  }

  /** Two packed arrays of the same strings are byte for byte and offset for offset the same. */
  lemma PackedUnique(o1: seq<nat>, s1: string, o2: seq<nat>, s2: string)
    requires Packed(o1, s1) && Packed(o2, s2)
    requires StringsOf(o1, s1) == StringsOf(o2, s2)
    ensures o1 == o2 && s1 == s2
  {
    forall n | 0 <= n < |o1| ensures o1[n] == o2[n] {
      PackedCanonical(o1, s1, n);
      PackedCanonical(o2, s2, n);
    }
    var n := |o1| - 1;
    PackedCanonical(o1, s1, n);
    PackedCanonical(o2, s2, n);
    assert s1 == s1[..o1[n]] && s2 == s2[..o2[n]];
  }

  /** The offsets of `src` from `start` on, moved so that the first of them would be `base`. */
  function Moved(src: seq<nat>, start: nat, end: nat, base: nat): (r: seq<nat>)
    requires start <= end < |src|
    requires forall i :: start <= i <= end ==> src[start] <= src[i]
    ensures |r| == end - start
  {
    seq(end - start, i requires 0 <= i < end - start => src[start + 1 + i] - src[start] + base)
  }

  /** Appending a range of another packed array appends exactly its strings. */
  lemma AppendedRange(offsets: seq<nat>, storage: string, src: seq<nat>, text: string, start: nat, end: nat)
    requires Packed(offsets, storage) && Packed(src, text) && start <= end < |src|
    ensures
      var o := offsets + Moved(src, start, end, |storage|);
      var s := storage + text[src[start]..src[end]];
      && Packed(o, s)
      && StringsOf(o, s) == StringsOf(offsets, storage) + StringsOf(src, text)[start..end]
  {
    var o := offsets + Moved(src, start, end, |storage|);
    MovedPacked(offsets, storage, src, text, start, end);
    forall i | 0 <= i < |o| - 1
      ensures StringsOf(o, storage + text[src[start]..src[end]])[i]
           == (StringsOf(offsets, storage) + StringsOf(src, text)[start..end])[i]
    {
      if i < |offsets| - 1 {
        KeptAt(offsets, storage, src, text, start, end, i);
      } else {
        AppendedAt(offsets, storage, src, text, start, end, i - (|offsets| - 1));
      }
    }
  }

  lemma KeptAt(offsets: seq<nat>, storage: string, src: seq<nat>, text: string, start: nat, end: nat, i: nat)
    requires Packed(offsets, storage) && Packed(src, text) && start <= end < |src| && i < |offsets| - 1
    ensures
      var o := offsets + Moved(src, start, end, |storage|);
      var s := storage + text[src[start]..src[end]];
      Packed(o, s) && StringsOf(o, s)[i] == storage[offsets[i]..offsets[i + 1]]
  {
    MovedPacked(offsets, storage, src, text, start, end);
    assert offsets[i + 1] <= |storage|;
  }

  lemma AppendedAt(offsets: seq<nat>, storage: string, src: seq<nat>, text: string, start: nat, end: nat, i: nat)
    requires Packed(offsets, storage) && Packed(src, text) && start <= end < |src| && i < end - start
    ensures
      var o := offsets + Moved(src, start, end, |storage|);
      var s := storage + text[src[start]..src[end]];
      Packed(o, s) && StringsOf(o, s)[|offsets| - 1 + i] == text[src[start + i]..src[start + i + 1]]
  {
    MovedPacked(offsets, storage, src, text, start, end);
    var k := start + i;
    assert src[k + 1] <= src[end];
    MovedSlice(storage, text, src[start], src[end], src[k], src[k + 1]);
    var o := offsets + Moved(src, start, end, |storage|);
    assert o[|offsets| - 1 + i] == src[k] - src[start] + |storage|;
    assert o[|offsets| + i] == src[k + 1] - src[start] + |storage|;
  }

  lemma MovedPacked(offsets: seq<nat>, storage: string, src: seq<nat>, text: string, start: nat, end: nat)
    requires Packed(offsets, storage) && Packed(src, text) && start <= end < |src|
    ensures Packed(offsets + Moved(src, start, end, |storage|), storage + text[src[start]..src[end]])
  {
    var m := Moved(src, start, end, |storage|);
    forall i, j | 0 <= i <= j < |m| ensures m[i] <= m[j] {
      assert src[start + 1 + i] <= src[start + 1 + j];
    }
    forall i | 0 <= i < |m| ensures |storage| <= m[i] {
      assert src[start] <= src[start + 1 + i];
    }
  }

  lemma MovedSlice(storage: string, text: string, a: nat, b: nat, i: nat, j: nat)
    requires a <= i <= j <= b <= |text|
    ensures (storage + text[a..b])[i - a + |storage|..j - a + |storage|] == text[i..j]
  {
    var s := storage + text[a..b];
    forall k | i <= k < j ensures s[k - a + |storage|] == text[k] {
      assert text[a..b][k - a] == text[k];
    }
  }

  class PackedStringArray {
    /** The largest value of the offset type. */
    const maxOffset: nat
    var offsets: seq<nat>
    var storage: string

    ghost predicate Valid()
      reads this
    {
      Packed(offsets, storage) && |storage| <= maxOffset
    }

    ghost function Strings(): (ss: seq<string>)
      requires Valid()
      reads this
      ensures |ss| == |offsets| - 1
    {
      StringsOf(offsets, storage)
    }

    constructor (maxOffset: nat)
      ensures Valid() && this.maxOffset == maxOffset && Strings() == []
    {
      this.maxOffset := maxOffset;
      offsets, storage := [0], [];
    }

    /** An array of `len` empty strings. */
    constructor Empty(maxOffset: nat, len: nat)
      ensures Valid() && this.maxOffset == maxOffset
      ensures Strings() == seq(len, _ => "")
    {
      this.maxOffset := maxOffset;
      offsets, storage := seq(len + 1, _ => 0), [];
    }

    method Append(data: string) returns (id: nat)
      requires Valid()
      requires |storage| + |data| <= maxOffset
      modifies this
      ensures Valid() && Strings() == old(Strings()) + [data] && id == old(|Strings()|)
    {
      id := |offsets| - 1;
      var offset := |storage| + |data|;
      AppendedRange(offsets, storage, [0, |data|], data, 0, 1);
      assert Moved([0, |data|], 0, 1, |storage|) == [offset];
      assert data[0..|data|] == data;
      assert StringsOf([0, |data|], data)[0..1] == [data];
      offsets := offsets + [offset];
      storage := storage + data;
    }

    /** Appends all strings of another array, reusing its leading offset as the current end. */
    method ExtendFrom(other: PackedStringArray)
      requires Valid() && other.Valid() && other != this
      requires |storage| + |other.storage| <= maxOffset
      modifies this
      ensures Valid() && Strings() == old(Strings()) + other.Strings()
    {
      var offset := |storage|;
      var n := |other.offsets| - 1;
      AppendedRange(offsets, storage, other.offsets, other.storage, 0, n);
      assert other.storage[0..|other.storage|] == other.storage;
      assert other.Strings()[0..n] == other.Strings();
      var src := other.offsets;
      var tail := seq(n, i requires 0 <= i < n < |src| => src[i + 1] + offset);
      assert tail == Moved(src, 0, n, offset);
      storage := storage + other.storage;
      offsets := offsets + tail;
    }

    method ExtendFromRange(other: PackedStringArray, start: nat, end: nat)
      requires Valid() && other.Valid() && other != this
      requires start <= end < |other.offsets|
      requires |storage| + other.offsets[end] - other.offsets[start] <= maxOffset
      modifies this
      ensures Valid() && Strings() == old(Strings()) + other.Strings()[start..end]
    {
      var firstOffset := other.offsets[start];
      var endOffset := other.offsets[end];
      var insertOffset := |storage|;
      AppendedRange(offsets, storage, other.offsets, other.storage, start, end);
      storage := storage + other.storage[firstOffset..endOffset];
      offsets := offsets + Moved(other.offsets, start, end, insertOffset);
    }

    method Get(index: nat) returns (r: Option<string>)
      requires Valid()
      ensures r == if index < |Strings()| then Some(Strings()[index]) else None
    {
      if index >= |offsets| || index + 1 >= |offsets| {
        return None;
      }
      r := Some(storage[offsets[index]..offsets[index + 1]]);
    }

    /** Pads with `len` empty strings. */
    method Extend(len: nat)
      requires Valid()
      modifies this
      ensures Valid() && Strings() == old(Strings()) + seq(len, _ => "")
    {
      var offset := |storage|;
      ghost var zeros := seq(len + 1, _ => 0);
      AppendedRange(offsets, storage, zeros, "", 0, len);
      assert storage + ""[0..0] == storage;
      assert Moved(zeros, 0, len, offset) == seq(len, _ => offset);
      assert StringsOf(zeros, "")[0..len] == seq(len, _ => "");
      offsets := offsets + seq(len, _ => offset);
    }

    method Truncate(len: nat)
      requires Valid()
      modifies this
      ensures Valid()
      ensures Strings() == if len <= old(|Strings()|) then old(Strings())[..len] else old(Strings())
    {
      if len + 1 <= |offsets| {
        PackedPrefix(offsets, storage, len);
        offsets := offsets[..len + 1];
      } else {
        PackedPrefix(offsets, storage, |offsets| - 1);
      }
      storage := storage[..offsets[|offsets| - 1]];
    }

    method Clear()
      requires Valid()
      modifies this
      ensures Valid() && Strings() == []
    {
      offsets := offsets[..1];
      storage := "";
    }
  }

  class PackedStringIterator {
    const source: PackedStringArray
    var index: nat

    constructor (source: PackedStringArray)
      ensures this.source == source && index == 0
    {
      this.source := source;
      index := 0;
    }

    method Next() returns (r: Option<string>)
      requires source.Valid()
      modifies this
      ensures r == if old(index) < |source.Strings()| then Some(source.Strings()[old(index)]) else None
      ensures index == if r == None then old(index) else old(index) + 1
    {
      r := source.Get(index);
      if r != None {
        index := index + 1;
      }
    }
  }

  /** Iterating yields the strings in order. */
  method Collect(source: PackedStringArray) returns (ss: seq<string>)
    requires source.Valid()
    ensures ss == source.Strings()
  {
    var it := new PackedStringIterator(source);
    ss := [];
    var next := it.Next();
    while next != None
      invariant fresh(it) && it.source == source && source.Valid()
      invariant it.index <= |source.Strings()|
      invariant next == None ==> ss == source.Strings()
      invariant next != None ==> 0 < it.index && ss + [next.value] == source.Strings()[..it.index]
      decreases if next == None then 0 else 1 + |source.Strings()| - it.index
    {
      ss := ss + [next.value];
      next := it.Next();
    }
  }
}
