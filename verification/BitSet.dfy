/** The packed, growable bit mask of the column buffers, as a refinement of `seq<bool>`. */
module BitSets {
  import opened Bits

  // ---------- how each byte-level step acts on the packed booleans ----------

  /** Joining a byte-aligned packing and any packing. */
  lemma PacksConcat(a: seq<bv8>, x: seq<bool>, b: seq<bv8>, y: seq<bool>)
    requires Packs(a, x) && Packs(b, y) && |x| % 8 == 0
    ensures Packs(a + b, x + y)
  {
    hide Flat, ByteBits;
    FlatConcat(a, b);
    assert Flat(a) == x;
    Assoc(x, y, Repeat(false, 8 * |b| - |y|));
  }

  /** Whole bytes pack exactly their own bits. */
  lemma WholeBytes(bytes: seq<bv8>)
    ensures Packs(bytes, Unpack(bytes, 8 * |bytes|))
  {
  }

  /** The low `n` bits of a byte pack into the byte with the rest masked away. */
  lemma MaskedByte(b: bv8, n: nat, m: bv8)
    requires 0 < n < 8 && m == b & ((1 << n) - 1)
    ensures Packs([m], Unpack([b], n))
  {
    hide Flat, ByteBits;
    MaskedBits(b, n, m);
    FlatSingle(m);
    FlatSingle(b);
  }

  /** Splits an unaligned packing into its whole bytes and the `s` bits in use of its last byte. */
  lemma SplitLast(buffer: seq<bv8>, bits: seq<bool>, s: nat)
    requires Packs(buffer, bits) && |bits| % 8 == s && 0 < s
    ensures 8 * (|buffer| - 1) + s == |bits|
    ensures Flat(buffer[..|buffer| - 1]) == bits[..|bits| - s]
    ensures ByteBits(buffer[|buffer| - 1]) == bits[|bits| - s..] + Repeat(false, 8 - s)
  {
    hide Flat, ByteBits;
    var last := |buffer| - 1;
    assert buffer == buffer[..last] + [buffer[last]];
    FlatConcat(buffer[..last], [buffer[last]]);
    FlatSingle(buffer[last]);
    assert Flat(buffer)[..8 * last] == Flat(buffer[..last]);
    assert Flat(buffer)[8 * last..] == ByteBits(buffer[last]);
  }

  lemma ReplaceLast(buffer: seq<bv8>, b: bv8)
    requires buffer != []
    ensures Flat(buffer[|buffer| - 1 := b]) == Flat(buffer[..|buffer| - 1]) + ByteBits(b)
  {
    hide Flat, ByteBits;
    assert buffer[|buffer| - 1 := b] == buffer[..|buffer| - 1] + [b];
    FlatConcat(buffer[..|buffer| - 1], [b]);
    FlatSingle(b);
  }

  /** Appending the bits `x` of `m` (the rest being clear) at an unaligned end: `merged` is the old
      last byte with the low part of `m` above it; `high` is what does not fit, needed exactly when
      something does not fit. */
  lemma SpillBits(buffer: seq<bv8>, bits: seq<bool>, m: seq<bool>, x: seq<bool>, s: nat, merged: bv8, high: bv8)
    requires Packs(buffer, bits) && |bits| % 8 == s && 0 < s
    requires 0 < |x| <= 8 && m == x + Repeat(false, 8 - |x|)
    requires ByteBits(merged) == bits[|bits| - s..] + m[..8 - s]
    requires ByteBits(high) == m[8 - s..] + Repeat(false, 8 - s)
    ensures |x| > 8 - s ==> Packs(buffer[|buffer| - 1 := merged] + [high], bits + x)
    ensures |x| <= 8 - s ==> Packs(buffer[|buffer| - 1 := merged], bits + x)
  {
    hide Flat, ByteBits;
    var last := |buffer| - 1;
    var lower := buffer[last := merged];
    SplitLast(buffer, bits, s);
    ReplaceLast(buffer, merged);
    FlatConcat(lower, [high]);
    FlatSingle(high);
    SpillRows(bits, bits[|bits| - s..], x, s, |bits| - s, Flat(lower), m, ByteBits(high));
  }

  /** The sequence identity behind `SpillBits`. */
  lemma SpillRows(bits: seq<bool>, t: seq<bool>, x: seq<bool>, s: nat, n: nat,
                  lower: seq<bool>, m: seq<bool>, high: seq<bool>)
    requires 0 < s < 8 && n + s == |bits| && t == bits[n..]
    requires 0 < |x| <= 8 && m == x + Repeat(false, 8 - |x|)
    requires lower == bits[..n] + (t + m[..8 - s])
    requires high == m[8 - s..] + Repeat(false, 8 - s)
    ensures |x| <= 8 - s ==> lower == bits + x + Repeat(false, 8 - s - |x|)
    ensures |x| > 8 - s ==> lower + high == bits + x + Repeat(false, 16 - s - |x|)
  {
    assert bits[..n] + t == bits;
    assert lower == bits + m[..8 - s];
  }

  lemma UnpackSnoc(bytes: seq<bv8>, j: nat, n: nat)
    requires j < |bytes| && n <= 8
    ensures Unpack(bytes, 8 * j + n) == Unpack(bytes[..j], 8 * j) + Unpack([bytes[j]], n)
  {
    hide Flat, ByteBits;
    assert bytes == bytes[..j] + ([bytes[j]] + bytes[j + 1..]);
    FlatConcat(bytes[..j], [bytes[j]] + bytes[j + 1..]);
    FlatConcat([bytes[j]], bytes[j + 1..]);
  }

  /** One loop step of the skewed append, on the booleans. */
  lemma UnpackGrows(was: seq<bool>, bytes: seq<bv8>, j: nat)
    requires j < |bytes|
    ensures was + Unpack(bytes[..j], 8 * j) + ByteBits(bytes[j]) == was + Unpack(bytes[..j + 1], 8 * (j + 1))
  {
    hide Flat, ByteBits;
    UnpackSnoc(bytes[..j + 1], j, 8);
    assert bytes[..j + 1][..j] == bytes[..j];
    FlatSingle(bytes[j]);
    Assoc(was, Unpack(bytes[..j], 8 * j), ByteBits(bytes[j]));
  }

  /** `count` bits are the whole bytes followed by the overrun, if there is one. */
  lemma UnpackSplit(was: seq<bool>, bytes: seq<bv8>, count: nat)
    requires |bytes| == (count + 7) / 8
    ensures
      var w := count / 8;
      var whole := was + Unpack(bytes[..w], 8 * w);
      was + Unpack(bytes, count) == if count % 8 == 0 then whole else whole + Unpack([bytes[w]], count % 8)
  {
    hide Flat, ByteBits;
    var w := count / 8;
    if count % 8 == 0 {
      assert bytes[..w] == bytes;
    } else {
      UnpackSnoc(bytes, w, count % 8);
      Assoc(was, Unpack(bytes[..w], 8 * w), Unpack([bytes[w]], count % 8));
    }
  }

  lemma NoPadding(x: seq<bool>)
    ensures x == x + Repeat(false, 0)
  {
  }

  lemma PacksUnpack(buffer: seq<bv8>, bits: seq<bool>)
    requires Packs(buffer, bits)
    ensures |bits| <= 8 * |buffer| && Unpack(buffer, |bits|) == bits
  {
    hide Flat, ByteBits;
  }

  /** Resizing a vector: a prefix, or the vector with `b` repeated behind it. */
  function Resize(s: seq<bv8>, n: nat, b: bv8): (r: seq<bv8>)
    ensures |r| == n
  {
    if n <= |s| then s[..n] else s + Bytes(b, n - |s|)
  }

  /** Growing a buffer with a byte of equal bits repeats that bit. */
  lemma GrownFlat(buffer: seq<bv8>, n: nat, b: bv8, v: bool)
    requires |buffer| <= n && ByteBits(b) == Repeat(v, 8)
    ensures Flat(Resize(buffer, n, b)) == Flat(buffer) + Repeat(v, 8 * (n - |buffer|))
  {
    hide Flat, ByteBits;
    if n == |buffer| {
      assert buffer[..n] == buffer;
      assert Flat(buffer) + Repeat(v, 0) == Flat(buffer);
    } else {
      FlatConcat(buffer, Bytes(b, n - |buffer|));
      FlatBytes(b, v, n - |buffer|);
    }
  }

  lemma RepeatSplit(v: bool, m: nat, n: nat)
    ensures Repeat(v, m + n) == Repeat(v, m) + Repeat(v, n)
  {
  }

  /** Masking the last byte down to its `n` low bits clears everything behind them. */
  lemma MaskedLast(buffer: seq<bv8>, n: nat, m: bv8)
    requires buffer != [] && 0 < n < 8
    requires ByteBits(m) == Unpack([buffer[|buffer| - 1]], n) + Repeat(false, 8 - n)
    ensures Flat(buffer[|buffer| - 1 := m]) == Unpack(buffer, 8 * (|buffer| - 1) + n) + Repeat(false, 8 - n)
  {
    hide Flat, ByteBits;
    var last := |buffer| - 1;
    ReplaceLast(buffer, m);
    UnpackSnoc(buffer, last, n);
    Assoc(Flat(buffer[..last]), Unpack([buffer[last]], n), Repeat(false, 8 - n));
  }

  lemma FlatPrefix(buffer: seq<bv8>, n: nat)
    requires n <= |buffer|
    ensures Flat(buffer[..n]) == Flat(buffer)[..8 * n]
  {
    hide Flat, ByteBits;
    FlatConcat(buffer[..n], buffer[n..]);
    assert buffer[..n] + buffer[n..] == buffer;
  }

  lemma UnsetRows(was: seq<bool>, count: nat, before: nat, grown: nat, after: nat)
    requires before + grown == count + after
    ensures was + Repeat(false, before) + Repeat(false, grown) == was + Repeat(false, count) + Repeat(false, after)
  {
    RepeatSplit(false, before, grown);
    RepeatSplit(false, count, after);
    Assoc(was, Repeat(false, before), Repeat(false, grown));
    Assoc(was, Repeat(false, count), Repeat(false, after));
  }

  /** A buffer filled up with ones and grown by ones carries `count` ones behind `was`. */
  lemma OnesBehind(buffer: seq<bv8>, was: seq<bool>, count: nat, n: nat)
    requires |buffer| <= n && |was| <= 8 * |buffer| && |was| + count <= 8 * n
    requires Flat(buffer) == was + Repeat(true, 8 * |buffer| - |was|)
    ensures Unpack(Resize(buffer, n, 0xFF), |was| + count) == was + Repeat(true, count)
  {
    hide Flat, ByteBits, Resize, Repeat, Unpack;
    OnesBits();
    GrownFlat(buffer, n, 0xFF, true);
    var a, b := 8 * |buffer| - |was|, 8 * (n - |buffer|);
    OnesRow(was, a, b, count);
    UnpackPrefix(Resize(buffer, n, 0xFF), was + Repeat(true, a) + Repeat(true, b), |was| + count);
  }

  lemma UnpackPrefix(buffer: seq<bv8>, flat: seq<bool>, k: nat)
    requires Flat(buffer) == flat && k <= |flat|
    ensures k <= 8 * |buffer| && Unpack(buffer, k) == flat[..k]
  {
    hide Flat;
  }

  lemma OnesRow(was: seq<bool>, a: nat, b: nat, count: nat)
    requires count <= a + b
    ensures (was + Repeat(true, a) + Repeat(true, b))[..|was| + count] == was + Repeat(true, count)
  {
  }

  /** What is left after cutting `prev` off after `bits` and clearing the rest of its last byte. */
  lemma MaskedPacks(prev: seq<bv8>, buffer: seq<bv8>, bits: seq<bool>, overrun: nat)
    requires |prev| == |buffer| == (|bits| + 7) / 8 && overrun == |bits| % 8
    requires Unpack(prev, |bits|) == bits
    requires overrun == 0 ==> buffer == prev
    requires overrun > 0 ==>
      Flat(buffer) == Unpack(prev, 8 * (|buffer| - 1) + overrun) + Repeat(false, 8 - overrun)
    ensures Packs(buffer, bits) && Unpack(buffer, |bits|) == bits
  {
    hide Flat, ByteBits;
  }

  lemma SecondPart(bits: seq<bool>, x: seq<bool>, y: seq<bool>, j: nat)
    requires j <= |bits| && bits[..j] == x + y
    ensures |x| <= j && y == bits[|x|..j]
  {
    assert bits[|x|..j] == bits[..j][|x|..];
  }

  lemma PrefixSplit(bytes: seq<bv8>, i: nat, j: nat)
    requires i <= j <= |bytes|
    ensures bytes[..j] == bytes[..i] + bytes[i..j]
  {
  }

  lemma FlatSlice(bytes: seq<bv8>, i: nat, j: nat)
    requires i <= j <= |bytes|
    ensures Flat(bytes[i..j]) == Flat(bytes)[8 * i..8 * j]
  {
    hide Flat, ByteBits;
    FlatPrefix(bytes, j);
    FlatConcat(bytes[..i], bytes[i..j]);
    PrefixSplit(bytes, i, j);
    SecondPart(Flat(bytes), Flat(bytes[..i]), Flat(bytes[i..j]), 8 * j);
  }

  lemma SliceOfSlice(bits: seq<bool>, a: nat, b: nat, c: nat, d: nat)
    requires a <= b <= |bits| && c <= d <= b - a
    ensures bits[a..b][c..d] == bits[a + c..a + d]
  {
    forall i | 0 <= i < d - c ensures bits[a..b][c..d][i] == bits[a + c..a + d][i] {
      assert bits[a..b][c + i] == bits[a + c + i];
    }
  }

  lemma SlicePrefix(bits: seq<bool>, a: nat, b: nat, n: nat)
    requires a <= b <= |bits| && n <= b - a
    ensures bits[a..b][..n] == bits[a..a + n]
  {
  }

  lemma RangeInRow(bits: seq<bool>, n8: nat, s: nat, n: nat, row: seq<bool>, high: seq<bool>)
    requires n8 + 8 <= |bits| && s + n <= 8
    requires row == bits[n8..n8 + 8] && high == row[s..] + Repeat(false, s)
    ensures high[..n] == bits[n8 + s..n8 + s + n]
  {
    SliceOfSlice(bits, n8, n8 + 8, s, s + n);
    assert high[..n] == row[s..s + n];
  }

  /** A byte-aligned range of a buffer is a slice of its bytes. */
  lemma AlignedRange(bytes: seq<bv8>, i: nat, j: nat, n: nat)
    requires i <= j <= |bytes| && n <= 8 * (j - i)
    ensures Unpack(bytes[i..j], n) == Flat(bytes)[8 * i..8 * i + n]
  {
    hide Flat, ByteBits;
    FlatSlice(bytes, i, j);
    SlicePrefix(Flat(bytes), 8 * i, 8 * j, n);
  }

  lemma ByteOfFlat(bytes: seq<bv8>, j: nat)
    requires j < |bytes|
    ensures Flat(bytes)[8 * j..8 * j + 8] == ByteBits(bytes[j])
  {
    hide Flat, ByteBits;
    FlatSlice(bytes, j, j + 1);
    assert bytes[j..j + 1] == [bytes[j]];
    FlatSingle(bytes[j]);
  }

  /** A range that stays within one byte is that byte with the bits before it dropped. */
  lemma ByteRange(bytes: seq<bv8>, j: nat, s: nat, n: nat, high: seq<bool>)
    requires j < |bytes| && s + n <= 8
    requires high == ByteBits(bytes[j])[s..] + Repeat(false, s)
    ensures high[..n] == Flat(bytes)[8 * j + s..8 * j + s + n]
  {
    hide Flat, ByteBits;
    ByteOfFlat(bytes, j);
    RangeInRow(Flat(bytes), 8 * j, s, n, ByteBits(bytes[j]), high);
  }

  /** Setting a bit of one byte sets exactly that bit of the buffer. */
  lemma SetFlat(bytes: seq<bv8>, j: nat, n: nat, b: bv8)
    requires j < |bytes| && n < 8 && ByteBits(b) == ByteBits(bytes[j])[n := true]
    ensures Flat(bytes[j := b]) == Flat(bytes)[8 * j + n := true]
  {
    hide Flat, ByteBits;
    var front, back := bytes[..j], bytes[j + 1..];
    assert bytes == front + ([bytes[j]] + back);
    assert bytes[j := b] == front + ([b] + back);
    FlatConcat(front, [bytes[j]] + back);
    FlatConcat(front, [b] + back);
    FlatConcat([bytes[j]], back);
    FlatConcat([b], back);
    FlatSingle(bytes[j]);
    FlatSingle(b);
  }

  lemma RangeSplit(was: seq<bool>, bits: seq<bool>, i: nat, j: nat, k: nat)
    requires i <= j <= k <= |bits|
    ensures was + bits[i..j] + bits[j..k] == was + bits[i..k]
  {
    assert bits[i..k] == bits[i..j] + bits[j..k];
    Assoc(was, bits[i..j], bits[j..k]);
  }

  /** Within the mask, a range of the buffer is that range of the booleans. */
  lemma RangeOfBits(buffer: seq<bv8>, len: nat, start: nat, end: nat)
    requires start <= end <= len <= 8 * |buffer|
    ensures Flat(buffer)[start..end] == Unpack(buffer, len)[start..end]
  {
    hide Flat, ByteBits;
    SliceOfSlice(Flat(buffer), 0, len, start, end);
    assert Flat(buffer)[0..len] == Unpack(buffer, len);
  }

  /** The positions `IsAllSet` looks at: it skips the last whole byte when a partial byte follows. */
  predicate Inspected(len: nat, i: nat) {
    len % 8 == 0 || i / 8 + 1 != len / 8
  }

  /** The answer of `IsAllSet` on a mask of these booleans. */
  ghost predicate InspectedSet(bits: seq<bool>) {
    bits != [] && forall i :: 0 <= i < |bits| && Inspected(|bits|, i) ==> bits[i]
  }

  ghost predicate AllSet(bits: seq<bool>) {
    forall i :: 0 <= i < |bits| ==> bits[i]
  }

  /** A byte of equal bits is recognised by its bits. */
  lemma UniformByte(bytes: seq<bv8>, j: nat, b: bv8, v: bool)
    requires j < |bytes| && ByteBits(b) == Repeat(v, 8)
    ensures bytes[j] == b <==> Flat(bytes)[8 * j..8 * j + 8] == Repeat(v, 8)
  {
    hide Flat, ByteBits;
    ByteOfFlat(bytes, j);
    if ByteBits(bytes[j]) == ByteBits(b) {
      ByteExtensional(bytes[j], b);
    }
  }

  lemma {:induction false} UniformBytes(bytes: seq<bv8>, n: nat, b: bv8, v: bool)
    requires n <= |bytes| && ByteBits(b) == Repeat(v, 8)
    ensures (forall j :: 0 <= j < n ==> bytes[j] == b) <==> Flat(bytes)[..8 * n] == Repeat(v, 8 * n)
  {
    hide Flat, ByteBits;
    if n != 0 {
      UniformBytes(bytes, n - 1, b, v);
      UniformByte(bytes, n - 1, b, v);
      UniformSplit(Flat(bytes), 8 * (n - 1), 8 * n, v);
    }
  }

  lemma UniformSplit(bits: seq<bool>, i: nat, j: nat, v: bool)
    requires i <= j <= |bits|
    ensures bits[..j] == Repeat(v, j) <==> bits[..i] == Repeat(v, i) && bits[i..j] == Repeat(v, j - i)
  {
    assert bits[..j] == bits[..i] + bits[i..j];
    RepeatSplit(v, i, j - i);
    if bits[..j] == Repeat(v, j) {
      assert bits[..i] == bits[..j][..i];
      assert bits[i..j] == bits[..j][i..];
    }
  }

  /** A partial last byte equals the mask of its bits in use exactly when they are all set. */
  lemma PartialByte(buffer: seq<bv8>, bits: seq<bool>, s: nat, mask: bv8)
    requires Packs(buffer, bits) && |bits| % 8 == s && 0 < s
    requires mask == !(0xFF << s)
    ensures buffer[|buffer| - 1] == mask <==> bits[|bits| - s..] == Repeat(true, s)
  {
    hide Flat, ByteBits;
    SplitLast(buffer, bits, s);
    LowMaskBits(s, mask);
    PaddedUniform(bits[|bits| - s..], s);
    if bits[|bits| - s..] == Repeat(true, s) {
      ByteExtensional(buffer[|buffer| - 1], mask);
    }
  }

  lemma PaddedUniform(t: seq<bool>, s: nat)
    requires |t| == s <= 8
    ensures t + Repeat(false, 8 - s) == Repeat(true, s) + Repeat(false, 8 - s) <==> t == Repeat(true, s)
  {
    assert (t + Repeat(false, 8 - s))[..s] == t;
    assert (Repeat(true, s) + Repeat(false, 8 - s))[..s] == Repeat(true, s);
  }

  /** `IsAllSet` answers the question it is asked on every mask of a given non-zero length exactly when
      that length is below eight or a whole number of bytes. */
  lemma IsAllSetExactIff(len: nat)
    requires len > 0
    ensures (forall bits: seq<bool> :: |bits| == len ==> (InspectedSet(bits) <==> AllSet(bits)))
      <==> (len < 8 || len % 8 == 0)
  {
    if len < 8 || len % 8 == 0 {
      forall bits: seq<bool> | |bits| == len ensures InspectedSet(bits) <==> AllSet(bits) {
        assert forall i :: 0 <= i < len ==> Inspected(len, i);
      }
    } else {
      var skipped := 8 * (len / 8 - 1);
      var bits := Repeat(true, len)[skipped := false];
      assert InspectedSet(bits);
      assert !bits[skipped];
    }
  }

  /** On a fully set mask the answer is right at every length. */
  lemma IsAllSetComplete(bits: seq<bool>)
    requires bits != [] && AllSet(bits)
    ensures InspectedSet(bits)
  {
  }

  /** Sixteen bits and one more, with bit 8 unset, pass for fully set. */
  lemma IsAllSetMisses()
    ensures
      var bits := Repeat(true, 17)[8 := false];
      InspectedSet(bits) && !AllSet(bits)
  {
    assert !(Repeat(true, 17)[8 := false])[8];
  }

  /** What the leading blocks and the last byte say together. */
  lemma InspectedParts(bits: seq<bool>, n: nat, s: nat)
    requires bits != [] && n == (if |bits| / 8 == 0 then 0 else |bits| / 8 - 1)
    requires s == if |bits| % 8 == 0 then 8 else |bits| % 8
    ensures InspectedSet(bits) <==> bits[..8 * n] == Repeat(true, 8 * n) && bits[|bits| - s..] == Repeat(true, s)
  {
    var front, back := bits[..8 * n], bits[|bits| - s..];
    if InspectedSet(bits) {
      forall i | 0 <= i < 8 * n ensures front[i] {
        assert Inspected(|bits|, i);
      }
      forall i | 0 <= i < s ensures back[i] {
        assert Inspected(|bits|, |bits| - s + i);
      }
    } else {
      var i :| 0 <= i < |bits| && Inspected(|bits|, i) && !bits[i];
      if i < 8 * n {
        assert !front[i];
      } else {
        assert !back[i - (|bits| - s)];
      }
    }
  }

  lemma InspectedBytes(buffer: seq<bv8>, bits: seq<bool>, n: nat, s: nat)
    requires Packs(buffer, bits) && bits != [] && n == (if |bits| / 8 == 0 then 0 else |bits| / 8 - 1)
    requires s == if |bits| % 8 == 0 then 8 else |bits| % 8
    ensures InspectedSet(bits) <==>
      (forall j :: 0 <= j < n ==> buffer[j] == 0xFF) && bits[|bits| - s..] == Repeat(true, s)
    ensures s == 8 ==> (buffer[|buffer| - 1] == 0xFF <==> bits[|bits| - s..] == Repeat(true, s))
  {
    hide Flat, ByteBits, InspectedSet;
    InspectedParts(bits, n, s);
    OnesBits();
    UniformBytes(buffer, n, 0xFF, true);
    assert Flat(buffer)[..8 * n] == bits[..8 * n];
    if s == 8 {
      UniformByte(buffer, |buffer| - 1, 0xFF, true);
      NoPadding(bits);
    }
  }

  lemma FilledRow(bits: seq<bool>, s: nat)
    requires 0 < s < 8 && s <= |bits|
    ensures bits[..|bits| - s] + (bits[|bits| - s..] + Repeat(true, 8)[..8 - s]) == bits + Repeat(true, 8 - s)
  {
  }

  lemma UnsetParts(bits: seq<bool>, flat: seq<bool>)
    requires |bits| <= |flat| && flat == bits + Repeat(false, |flat| - |bits|)
    ensures flat == Repeat(false, |flat|) <==> forall i :: 0 <= i < |bits| ==> !bits[i]
  {
    assert forall i :: 0 <= i < |bits| ==> flat[i] == bits[i];
  }

  class BitSet {
    var buffer: seq<bv8>
    var len: nat

    ghost predicate Valid()
      reads this
    {
      len <= 8 * |buffer| && Packs(buffer, Bits())
    }

    ghost function Bits(): (bits: seq<bool>)
      requires len <= 8 * |buffer|
      reads this
    {
      Unpack(buffer, len)
    }

    constructor ()
      ensures Valid() && Bits() == []
    {
      buffer, len := [], 0;
    }

    /** Merges the low part of `m` into the last byte and pushes the rest when it does not fit. */
    method PushShifted(m: bv8, n: nat, skew: nat, ghost bits: seq<bool>, ghost x: seq<bool>)
      requires Packs(buffer, bits) && |bits| % 8 == skew && 0 < skew
      requires 0 < n == |x| <= 8 && ByteBits(m) == x + Repeat(false, 8 - n)
      modifies this`buffer
      ensures Packs(buffer, bits + x)
    {
      hide Flat, ByteBits;
      var last := |buffer| - 1;
      SplitLast(buffer, bits, skew);
      var merged := Merge(buffer[last], m, skew, bits[|bits| - skew..]);
      var high := DropLow(m, 8 - skew);
      SpillBits(buffer, bits, ByteBits(m), x, skew, merged, high);
      buffer := buffer[last := merged];
      if n > 8 - skew {
        buffer := buffer + [high];
      }
    }

    /** Appends `count` booleans from packed bytes, ignoring whatever the unused high bits of the
        last byte hold. */
    method AppendBits(count: nat, toSet: seq<bv8>)
      requires Valid()
      requires (count + 7) / 8 == |toSet|
      modifies this
      ensures Valid() && Bits() == old(Bits()) + Unpack(toSet, count)
    {
      hide Flat, ByteBits, Packs, Unpack;
      ghost var was := Bits();
      if len % 8 == 0 {
        AppendAligned(count, toSet);
      } else {
        AppendSkewed(count, toSet);
      }
      len := len + count;
      PacksUnpack(buffer, was + Unpack(toSet, count));
    }

    method AppendUnset(count: nat)
      requires Valid()
      modifies this
      ensures Valid() && Bits() == old(Bits()) + Repeat(false, count)
    {
      hide Flat, ByteBits;
      ghost var was := Bits();
      var newBufLen := (len + count + 7) / 8;
      ZeroBits();
      GrownFlat(buffer, newBufLen, 0, false);
      UnsetRows(was, count, 8 * |buffer| - len, 8 * (newBufLen - |buffer|), 8 * newBufLen - len - count);
      len := len + count;
      buffer := Resize(buffer, newBufLen, 0);
      PacksUnpack(buffer, was + Repeat(false, count));
    }

    method AppendSet(count: nat)
      requires Valid()
      modifies this
      ensures Valid() && Bits() == old(Bits()) + Repeat(true, count)
    {
      hide Flat, ByteBits;
      ghost var was := Bits();
      var newLen := len + count;
      var newBufLen := (newLen + 7) / 8;
      FillLast();
      OnesBehind(buffer, was, count, newBufLen);
      buffer := Resize(buffer, newBufLen, 0xFF);
      ghost var prev := buffer;
      MaskOverrun(newLen % 8);
      len := newLen;
      MaskedPacks(prev, buffer, was + Repeat(true, count), newLen % 8);
    }

    /** Sets every padding bit of the last byte. */
    method FillLast()
      requires Valid()
      modifies this`buffer
      ensures |buffer| == old(|buffer|)
      ensures Flat(buffer) == old(Bits()) + Repeat(true, 8 * |buffer| - len)
    {
      hide Flat, ByteBits;
      var skew := len % 8;
      if skew != 0 {
        ghost var was := Bits();
        var last := |buffer| - 1;
        SplitLast(buffer, was, skew);
        OnesBits();
        var merged := Merge(buffer[last], 0xFF, skew, was[len - skew..]);
        ReplaceLast(buffer, merged);
        FilledRow(was, skew);
        buffer := buffer[last := merged];
      }
    }

    /** Clears the bits of the last byte from `overrun` on, when there is an overrun. */
    method MaskOverrun(overrun: nat)
      requires overrun < 8 && (overrun == 0 || buffer != [])
      modifies this`buffer
      ensures |buffer| == old(|buffer|)
      ensures overrun == 0 ==> buffer == old(buffer)
      ensures overrun > 0 ==>
        Flat(buffer) == Unpack(old(buffer), 8 * (|buffer| - 1) + overrun) + Repeat(false, 8 - overrun)
    {
      hide Flat, ByteBits;
      if overrun > 0 {
        var last := |buffer| - 1;
        var masked := LowBits(buffer[last], overrun);
        MaskedLast(buffer, overrun, masked);
        buffer := buffer[last := masked];
      }
    }

    /** Truncates to `newLen` bits. Nothing in the code stops a caller from asking for more bits than
        there are: up to the end of the buffer that appends unset bits, and beyond it the mask is broken. */
    method Truncate(newLen: nat)
      requires Valid()
      requires newLen % 8 == 0 || buffer != []
      modifies this
      ensures Valid() <==> newLen <= 8 * old(|buffer|)
      ensures newLen <= old(len) ==> Bits() == old(Bits())[..newLen]
      ensures old(len) <= newLen <= 8 * old(|buffer|) ==> Bits() == old(Bits()) + Repeat(false, newLen - old(len))
    {
      hide Flat, ByteBits;
      var newBufLen := (newLen + 7) / 8;
      if newBufLen <= |buffer| {
        FlatPrefix(buffer, newBufLen);
        buffer := buffer[..newBufLen];
      }
      ghost var prev := buffer;
      MaskOverrun(newLen % 8);
      len := newLen;
      if newLen <= 8 * old(|buffer|) {
        MaskedPacks(prev, buffer, Unpack(old(buffer), newLen), newLen % 8);
      }
    }

    /** Appends the whole of another mask. */
    method ExtendFrom(other: BitSet)
      requires Valid() && other.Valid() && other != this
      modifies this
      ensures Valid() && Bits() == old(Bits()) + other.Bits()
    {
      hide Flat, ByteBits;
      AppendBits(other.len, other.buffer);
    }

    /** Appends a range of another mask, at any alignment of source and destination. A range may
        reach into the padding of the other mask, which reads as unset. */
    method ExtendFromRange(other: BitSet, start: nat, end: nat)
      requires Valid() && other.Valid() && other != this
      requires start <= end && (start == end || end <= 8 * |other.buffer|)
      modifies this
      ensures Valid()
      ensures start == end ==> Bits() == old(Bits())
      ensures start < end ==> Bits() == old(Bits()) + Flat(other.buffer)[start..end]
      ensures start < end <= other.len ==> Bits() == old(Bits()) + other.Bits()[start..end]
    {
      hide Flat, ByteBits, Packs, Unpack;
      var count := end - start;
      if count == 0 {
        return;
      }
      if end <= other.len {
        RangeOfBits(other.buffer, other.len, start, end);
      }
      var startByte := start / 8;
      var endByte := (end + 7) / 8;
      var skew := start % 8;
      if skew == 0 {
        AppendBytes(other, startByte, endByte, count);
      } else if startByte + 1 == endByte {
        AppendFromByte(other, startByte, skew, count);
      } else {
        AppendTwoParts(other, startByte, endByte, skew, count);
      }
    }

    /** Appends the rest of one byte of another mask to reach a byte boundary, then the bytes after it. */
    method AppendTwoParts(other: BitSet, i: nat, j: nat, skew: nat, count: nat)
      requires Valid() && other != this
      requires i + 1 < j <= |other.buffer| && 0 < skew < 8 && (skew + count + 7) / 8 == j - i
      modifies this
      ensures Valid() && Bits() == old(Bits()) + Flat(other.buffer)[8 * i + skew..8 * i + skew + count]
    {
      hide Flat, ByteBits, Packs, Unpack;
      var offset := 8 - skew;
      RangeSplit(Bits(), Flat(other.buffer), 8 * i + skew, 8 * i + 8, 8 * i + skew + count);
      AppendFromByte(other, i, skew, offset);
      AppendBytes(other, i + 1, j, count - offset);
    }

    /** Appends `n` bits of another mask from the boundary of byte `i` on. */
    method AppendBytes(other: BitSet, i: nat, j: nat, n: nat)
      requires Valid() && other != this
      requires i <= j <= |other.buffer| && (n + 7) / 8 == j - i
      modifies this
      ensures Valid() && Bits() == old(Bits()) + Flat(other.buffer)[8 * i..8 * i + n]
    {
      hide Flat, ByteBits;
      AlignedRange(other.buffer, i, j, n);
      AppendBits(n, other.buffer[i..j]);
    }

    /** Appends `n` bits of one byte of another mask, from bit `skew` of that byte on. */
    method AppendFromByte(other: BitSet, j: nat, skew: nat, n: nat)
      requires Valid() && other != this
      requires j < |other.buffer| && 0 < n && skew + n <= 8
      modifies this
      ensures Valid() && Bits() == old(Bits()) + Flat(other.buffer)[8 * j + skew..8 * j + skew + n]
    {
      hide Flat, ByteBits;
      var high := DropLow(other.buffer[j], skew);
      FlatSingle(high);
      ByteRange(other.buffer, j, skew, n, Flat([high]));
      AppendBits(n, [high]);
    }

    /** Sets a bit. The code admits the position just behind the last bit, where it dirties the padding. */
    method Set(idx: nat)
      requires Valid()
      requires idx <= len && idx / 8 < |buffer|
      modifies this`buffer
      ensures Valid() <==> idx < len
      ensures idx < len ==> Bits() == old(Bits())[idx := true]
    {
      hide Flat, ByteBits;
      var byteIdx := idx / 8;
      var bitIdx := idx % 8;
      var b := WithBit(buffer[byteIdx], bitIdx);
      SetFlat(buffer, byteIdx, bitIdx, b);
      buffer := buffer[byteIdx := b];
      if idx == len {
        assert Flat(buffer)[idx];
      }
    }

    /** Reads a bit; the position just behind the last bit reads as unset. */
    method Get(idx: nat) returns (r: bool)
      requires Valid()
      requires idx <= len && idx / 8 < |buffer|
      ensures r == (idx < len && Bits()[idx])
    {
      var byteIdx := idx / 8;
      var bitIdx := idx % 8;
      FlatAt(buffer, idx);
      r := (buffer[byteIdx] >> bitIdx) & 1 != 0;
    }

    /** Whether all bits are set, as the code decides it. */
    method IsAllSet() returns (r: bool)
      requires Valid()
      ensures r <==> InspectedSet(Bits())
    {
      hide Flat, ByteBits;
      if len == 0 {
        return false;
      }
      var fullBlocks := if len / 8 == 0 then 0 else len / 8 - 1;
      var rem := if len % 8 == 0 then 8 else len % 8;
      InspectedBytes(buffer, Bits(), fullBlocks, rem);
      if !forall j | 0 <= j < fullBlocks :: buffer[j] == 0xFF {
        return false;
      }
      if len % 8 == 0 {
        r := buffer[|buffer| - 1] == 0xFF;
      } else {
        r := IsMask(buffer[|buffer| - 1], len % 8, buffer, Bits());
      }
    }

    /** Whether the last byte has exactly its `s` bits in use set. */
    method IsMask(last: bv8, s: nat, ghost packed: seq<bv8>, ghost bits: seq<bool>) returns (r: bool)
      requires Packs(packed, bits) && |bits| % 8 == s && 0 < s && last == packed[|packed| - 1]
      ensures r <==> bits[|bits| - s..] == Repeat(true, s)
    {
      hide Flat, ByteBits;
      var mask := !(0xFF << s);
      PartialByte(packed, bits, s, mask);
      r := last == mask;
    }

    /** Whether all bits are unset. */
    method IsAllUnset() returns (r: bool)
      requires Valid()
      ensures r <==> forall i :: 0 <= i < len ==> !Bits()[i]
    {
      hide Flat, ByteBits;
      r := forall j | 0 <= j < |buffer| :: buffer[j] == 0;
      ZeroBits();
      UniformBytes(buffer, |buffer|, 0, false);
      UnsetParts(Bits(), Flat(buffer));
    }

    method AppendAligned(count: nat, toSet: seq<bv8>)
      requires Valid() && len % 8 == 0
      requires (count + 7) / 8 == |toSet|
      modifies this`buffer
      ensures Packs(buffer, old(Bits()) + Unpack(toSet, count))
    {
      hide Flat, ByteBits, Packs, Unpack;
      ghost var was := Bits();
      var wholeBytes := count / 8;
      var overrun := count % 8;
      ghost var whole := Unpack(toSet[..wholeBytes], 8 * wholeBytes);
      UnpackSplit(was, toSet, count);
      WholeBytes(toSet[..wholeBytes]);
      PacksConcat(buffer, was, toSet[..wholeBytes], whole);
      buffer := buffer + toSet[..wholeBytes];
      if overrun > 0 {
        var masked := LowBits(toSet[wholeBytes], overrun);
        PacksConcat(buffer, was + whole, [masked], Unpack([toSet[wholeBytes]], overrun));
        buffer := buffer + [masked];
      }
    }

    method AppendSkewed(count: nat, toSet: seq<bv8>)
      requires Valid() && len % 8 != 0
      requires (count + 7) / 8 == |toSet|
      modifies this`buffer
      ensures Packs(buffer, old(Bits()) + Unpack(toSet, count))
    {
      hide Flat, ByteBits, Packs, Unpack;
      ghost var was := Bits();
      var wholeBytes := count / 8;
      var overrun := count % 8;
      var skew := len % 8;
      var j := 0;
      assert was + Unpack(toSet[..0], 0) == was;
      while j < wholeBytes
        invariant 0 <= j <= wholeBytes
        invariant Packs(buffer, was + Unpack(toSet[..j], 8 * j))
      {
        NoPadding(ByteBits(toSet[j]));
        PushShifted(toSet[j], 8, skew, was + Unpack(toSet[..j], 8 * j), ByteBits(toSet[j]));
        UnpackGrows(was, toSet, j);
        j := j + 1;
      }
      UnpackSplit(was, toSet, count);
      if overrun > 0 {
        var masked := LowBits(toSet[wholeBytes], overrun);
        PushShifted(masked, overrun, skew, was + Unpack(toSet[..wholeBytes], 8 * wholeBytes),
                    Unpack([toSet[wholeBytes]], overrun));
      }
    }
  }

  /** The part of `m` moved up by `skew` that fits above `t` in the byte `a`. */
  method Merge(a: bv8, m: bv8, skew: nat, ghost t: seq<bool>) returns (merged: bv8)
    requires |t| == skew < 8 && ByteBits(a) == t + Repeat(false, 8 - skew)
    ensures ByteBits(merged) == t + ByteBits(m)[..8 - skew]
  {
    var low := m << skew;
    merged := a | low;
    MergedBits(a, t, m, skew, merged);
  }

  /** The bits of `m` from `s` on. */
  method DropLow(m: bv8, s: nat) returns (high: bv8)
    requires s < 8
    ensures ByteBits(high) == ByteBits(m)[s..] + Repeat(false, s)
  {
    high := m >> s;
    HighBits(m, s, high);
  }

  method WithBit(b: bv8, n: nat) returns (r: bv8)
    requires n < 8
    ensures ByteBits(r) == ByteBits(b)[n := true]
  {
    r := b | (1 << n);
    SetBits(b, n, r);
  }

  /** The low `n` bits of `b`, the others masked away. */
  method LowBits(b: bv8, n: nat) returns (m: bv8)
    requires 0 < n < 8
    ensures Packs([m], Unpack([b], n))
    ensures ByteBits(m) == Unpack([b], n) + Repeat(false, 8 - n)
  {
    m := b & ((1 << n) - 1);
    MaskedByte(b, n, m);
    FlatSingle(m);
  }
}
