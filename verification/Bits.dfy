/** Bytes as bit vectors, least significant bit first, and the relation between a
    packed byte buffer and the sequence of booleans it stands for. */
module Bits {

  /** Bit `i` of a byte. */
  function Bit(b: bv8, i: nat): (r: bool)
    requires i < 8
  {
    (b >> i) & 1 != 0
  }

  /** The eight bits of a byte, least significant first. */
  function ByteBits(b: bv8): (bits: seq<bool>)
    ensures |bits| == 8
  {
    seq(8, i requires 0 <= i < 8 => Bit(b, i))
  }

  /** All bits of a byte buffer, in order. */
  function Flat(bytes: seq<bv8>): (bits: seq<bool>)
    ensures |bits| == 8 * |bytes|
  {
    if bytes == [] then [] else ByteBits(bytes[0]) + Flat(bytes[1..])
  }

  /** The first `n` bits of a packed buffer. */
  function Unpack(bytes: seq<bv8>, n: nat): (bits: seq<bool>)
    requires n <= 8 * |bytes|
    ensures |bits| == n
  {
    Flat(bytes)[..n]
  }

  function Repeat(v: bool, n: nat): (s: seq<bool>)
    ensures |s| == n && forall i :: 0 <= i < n ==> s[i] == v
  {
    seq(n, _ => v)
  }

  /** `buffer` is the canonical packing of `bits`: no spare byte, and every padding bit zero. */
  ghost predicate Packs(buffer: seq<bv8>, bits: seq<bool>) {
    && |buffer| == (|bits| + 7) / 8
    && Flat(buffer) == bits + Repeat(false, 8 * |buffer| - |bits|)
  }

  // ---------- single bytes ----------

  lemma OrBit(a: bv8, b: bv8, i: nat)
    requires i < 8
    ensures Bit(a | b, i) == (Bit(a, i) || Bit(b, i))
  {
    var k := i as bv8;
    assert (a | b) >> k == (a >> k) | (b >> k);
  }

  lemma NotBit(a: bv8, i: nat)
    requires i < 8
    ensures Bit(!a, i) == !Bit(a, i)
  {
    if i == 0 {} else if i == 1 {} else if i == 2 {} else if i == 3 {}
    else if i == 4 {} else if i == 5 {} else if i == 6 {} else {}
  }

  lemma DeMorgan(a: bv8, b: bv8)
    ensures a & b == !(!a | !b)
  {
  }

  lemma AndBit(a: bv8, b: bv8, i: nat)
    requires i < 8
    ensures Bit(a & b, i) == (Bit(a, i) && Bit(b, i))
  {
    hide Bit;
    DeMorgan(a, b);
    NotBit(!a | !b, i);
    OrBit(!a, !b, i);
    NotBit(a, i);
    NotBit(b, i);
  }

  lemma ShlBit(b: bv8, s: nat, i: nat)
    requires s < 8 && i < 8
    ensures Bit(b << s, i) == (s <= i && Bit(b, i - s))
  {
    if s == 0 {} else if s == 1 {} else if s == 2 {} else if s == 3 {}
    else if s == 4 {} else if s == 5 {} else if s == 6 {} else {}
  }

  lemma ShrBit(b: bv8, s: nat, i: nat)
    requires s < 8 && i < 8
    ensures Bit(b >> s, i) == (i + s < 8 && Bit(b, i + s))
  {
    if s == 0 {} else if s == 1 {} else if s == 2 {} else if s == 3 {}
    else if s == 4 {} else if s == 5 {} else if s == 6 {} else {}
  }

  lemma LowMask(s: nat, i: nat)
    requires s < 8 && i < 8
    ensures Bit((1 << s) - 1, i) == (i < s)
  {
    if s == 0 {} else if s == 1 {} else if s == 2 {} else if s == 3 {}
    else if s == 4 {} else if s == 5 {} else if s == 6 {} else {}
  }

  lemma AllOnes(i: nat)
    requires i < 8
    ensures Bit(0xFF, i)
  {
    if i == 0 {} else if i == 1 {} else if i == 2 {} else if i == 3 {}
    else if i == 4 {} else if i == 5 {} else if i == 6 {} else {}
  }

  lemma OneBit(n: nat, i: nat)
    requires n < 8 && i < 8
    ensures Bit(1 << n, i) == (i == n)
  {
    if n == 0 {} else if n == 1 {} else if n == 2 {} else if n == 3 {}
    else if n == 4 {} else if n == 5 {} else if n == 6 {} else {}
  }

  /** Masking keeps the low `n` bits and clears the rest. */
  lemma MaskedBits(b: bv8, n: nat, m: bv8)
    requires n < 8 && m == b & ((1 << n) - 1)
    ensures ByteBits(m) == ByteBits(b)[..n] + Repeat(false, 8 - n)
  {
    hide Bit;
    forall i | 0 <= i < 8 ensures Bit(m, i) == (i < n && Bit(b, i)) {
      AndBit(b, (1 << n) - 1, i);
      LowMask(n, i);
    }
  }

  /** Or-ing in a byte shifted up by `s` fills a byte whose bits from `s` on are clear. */
  lemma MergedBits(a: bv8, t: seq<bool>, m: bv8, s: nat, merged: bv8)
    requires |t| == s < 8 && ByteBits(a) == t + Repeat(false, 8 - s)
    requires merged == a | (m << s)
    ensures ByteBits(merged) == t + ByteBits(m)[..8 - s]
  {
    hide Bit;
    forall i | 0 <= i < 8 ensures Bit(merged, i) == (Bit(a, i) || (s <= i && Bit(m, i - s))) {
      OrBit(a, m << s, i);
      ShlBit(m, s, i);
    }
    MergedRow(a, t, m, s, merged);
  }

  lemma MergedRow(a: bv8, t: seq<bool>, m: bv8, s: nat, merged: bv8)
    requires |t| == s < 8 && ByteBits(a) == t + Repeat(false, 8 - s)
    requires forall i :: 0 <= i < 8 ==> Bit(merged, i) == (Bit(a, i) || (s <= i && Bit(m, i - s)))
    ensures ByteBits(merged) == t + ByteBits(m)[..8 - s]
  {
    hide Bit;
    forall i | 0 <= i < 8 ensures ByteBits(merged)[i] == (t + ByteBits(m)[..8 - s])[i] {
      assert Bit(a, i) == ByteBits(a)[i];
    }
  }

  /** Shifting down drops the low bits and clears the high ones. */
  lemma HighBits(m: bv8, s: nat, high: bv8)
    requires s < 8 && high == m >> s
    ensures ByteBits(high) == ByteBits(m)[s..] + Repeat(false, s)
  {
    hide Bit;
    forall i | 0 <= i < 8 ensures Bit(high, i) == (i + s < 8 && Bit(m, i + s)) {
      ShrBit(m, s, i);
    }
  }

  lemma SetBits(b: bv8, n: nat, r: bv8)
    requires n < 8 && r == b | (1 << n)
    ensures ByteBits(r) == ByteBits(b)[n := true]
  {
    hide Bit;
    forall i | 0 <= i < 8 ensures Bit(r, i) == (i == n || Bit(b, i)) {
      OrBit(b, 1 << n, i);
      OneBit(n, i);
    }
    SetRow(b, n, r);
  }

  lemma XorBit(a: bv8, b: bv8, i: nat)
    requires i < 8
    ensures Bit(a ^ b, i) == (Bit(a, i) != Bit(b, i))
  {
    var k := i as bv8;
    assert (a ^ b) >> k == (a >> k) ^ (b >> k);
  }

  /** Toggling a set bit clears it. */
  lemma ToggledBits(b: bv8, n: nat, r: bv8)
    requires n < 8 && Bit(b, n) && r == b ^ (1 << n)
    ensures ByteBits(r) == ByteBits(b)[n := false]
  {
    hide Bit;
    forall i | 0 <= i < 8 ensures Bit(r, i) == (i != n && Bit(b, i)) {
      XorBit(b, 1 << n, i);
      OneBit(n, i);
    }
    ClearedRow(b, n, r);
  }

  lemma ClearedRow(b: bv8, n: nat, r: bv8)
    requires n < 8 && forall i :: 0 <= i < 8 ==> Bit(r, i) == (i != n && Bit(b, i))
    ensures ByteBits(r) == ByteBits(b)[n := false]
  {
    hide Bit;
  }

  /** Masking with the high bits clears everything below `s`. */
  lemma HighMaskedBits(b: bv8, s: nat, m: bv8)
    requires s < 8 && m == b & (0xFF << s)
    ensures ByteBits(m) == Repeat(false, s) + ByteBits(b)[s..]
  {
    hide Bit;
    forall i | 0 <= i < 8 ensures Bit(m, i) == (s <= i && Bit(b, i)) {
      AndBit(b, 0xFF << s, i);
      ShlBit(0xFF, s, i);
      if s <= i {
        AllOnes(i - s);
      }
    }
    HighRow(b, s, m);
  }

  lemma HighRow(b: bv8, s: nat, m: bv8)
    requires s < 8 && forall i :: 0 <= i < 8 ==> Bit(m, i) == (s <= i && Bit(b, i))
    ensures ByteBits(m) == Repeat(false, s) + ByteBits(b)[s..]
  {
    hide Bit;
  }

  /** The complement of the high mask has exactly the low `n` bits set. */
  lemma LowMaskBits(n: nat, m: bv8)
    requires n < 8 && m == !(0xFF << n)
    ensures ByteBits(m) == Repeat(true, n) + Repeat(false, 8 - n)
  {
    hide Bit;
    forall i | 0 <= i < 8 ensures Bit(m, i) == (i < n) {
      NotBit(0xFF << n, i);
      ShlBit(0xFF, n, i);
      if n <= i {
        AllOnes(i - n);
      }
    }
  }

  lemma SetRow(b: bv8, n: nat, r: bv8)
    requires n < 8 && forall i :: 0 <= i < 8 ==> Bit(r, i) == (i == n || Bit(b, i))
    ensures ByteBits(r) == ByteBits(b)[n := true]
  {
    hide Bit;
  }

  lemma ZeroBits()
    ensures ByteBits(0) == Repeat(false, 8)
  {
    MaskedBits(0, 0, 0);
  }

  lemma OnesBits()
    ensures ByteBits(0xFF) == Repeat(true, 8)
  {
    hide Bit;
    forall i | 0 <= i < 8 ensures Bit(0xFF, i) {
      AllOnes(i);
    }
  }

  lemma ByteExtensional(a: bv8, b: bv8)
    requires ByteBits(a) == ByteBits(b)
    ensures a == b
  {
    forall i | 0 <= i < 8 ensures Bit(a, i) == Bit(b, i) {
      assert ByteBits(a)[i] == ByteBits(b)[i];
    }
    assert Bit(a, 0) == Bit(b, 0) && Bit(a, 1) == Bit(b, 1) && Bit(a, 2) == Bit(b, 2) && Bit(a, 3) == Bit(b, 3);
    assert Bit(a, 4) == Bit(b, 4) && Bit(a, 5) == Bit(b, 5) && Bit(a, 6) == Bit(b, 6) && Bit(a, 7) == Bit(b, 7);
  }

  // ---------- whole buffers ----------

  lemma Assoc(a: seq<bool>, b: seq<bool>, c: seq<bool>)
    ensures a + b + c == a + (b + c)
  {
  }

  lemma {:induction false} FlatConcat(a: seq<bv8>, b: seq<bv8>)
    ensures Flat(a + b) == Flat(a) + Flat(b)
  {
    if a == [] {
      assert a + b == b;
    } else {
      FlatConcat(a[1..], b);
      assert (a + b)[1..] == a[1..] + b;
      Assoc(ByteBits(a[0]), Flat(a[1..]), Flat(b));
    }
  }

  lemma FlatSingle(b: bv8)
    ensures Flat([b]) == ByteBits(b)
  {
  }

  /** `n` copies of one byte. */
  function Bytes(b: bv8, n: nat): (bytes: seq<bv8>)
    ensures |bytes| == n
  {
    if n == 0 then [] else [b] + Bytes(b, n - 1)
  }

  lemma {:induction false} FlatBytes(b: bv8, v: bool, n: nat)
    requires ByteBits(b) == Repeat(v, 8)
    ensures Flat(Bytes(b, n)) == Repeat(v, 8 * n)
  {
    if n != 0 {
      FlatBytes(b, v, n - 1);
      assert Bytes(b, n)[1..] == Bytes(b, n - 1);
      assert Repeat(v, 8 * n) == Repeat(v, 8) + Repeat(v, 8 * (n - 1));
    }
  }

  lemma {:induction false} FlatAt(bytes: seq<bv8>, k: nat)
    requires k < 8 * |bytes|
    ensures Flat(bytes)[k] == Bit(bytes[k / 8], k % 8)
  {
    if 8 <= k {
      FlatAt(bytes[1..], k - 8);
      assert bytes[1..][(k - 8) / 8] == bytes[k / 8];
    }
  }

  /** A packing is unique: two buffers of the same bits are the same bytes. */
  lemma {:induction false} FlatInjective(a: seq<bv8>, b: seq<bv8>)
    requires Flat(a) == Flat(b)
    ensures a == b
  {
    if a != [] {
      assert ByteBits(a[0]) == Flat(a)[..8] == Flat(b)[..8] == ByteBits(b[0]);
      assert Flat(a[1..]) == Flat(a)[8..] == Flat(b)[8..] == Flat(b[1..]);
      ByteExtensional(a[0], b[0]);
      FlatInjective(a[1..], b[1..]);
    }
  }

  // ---------- packing a whole sequence of booleans at once ----------

  /** One byte of up to eight booleans. */
  function PackByte(bits: seq<bool>): (b: bv8)
    requires |bits| <= 8
  {
    if bits == [] then 0
    else
      var n := |bits| - 1;
      var b := PackByte(bits[..n]);
      if bits[n] then b | (1 << n) else b
  }

  /** Packs a whole sequence of booleans, eight to a byte. */
  function Pack(bits: seq<bool>): (buffer: seq<bv8>)
  {
    if bits == [] then []
    else if |bits| <= 8 then [PackByte(bits)]
    else [PackByte(bits[..8])] + Pack(bits[8..])
  }

  lemma {:induction false} PackByteBits(bits: seq<bool>)
    requires |bits| <= 8
    ensures ByteBits(PackByte(bits)) == bits + Repeat(false, 8 - |bits|)
  {
    hide ByteBits;
    if bits == [] {
      MaskedBits(0, 0, 0);
    } else {
      var n := |bits| - 1;
      PackByteBits(bits[..n]);
      PackOne(PackByte(bits[..n]), n, bits[n], PackByte(bits));
      PackStep(bits, ByteBits(PackByte(bits[..n])), ByteBits(PackByte(bits)));
    }
  }

  lemma PackOne(b: bv8, n: nat, v: bool, r: bv8)
    requires n < 8 && r == if v then b | (1 << n) else b
    ensures ByteBits(r) == if v then ByteBits(b)[n := true] else ByteBits(b)
  {
    if v {
      SetBits(b, n, r);
    }
  }

  lemma PackStep(bits: seq<bool>, before: seq<bool>, after: seq<bool>)
    requires 0 < |bits| <= 8 == |before| && before == bits[..|bits| - 1] + Repeat(false, 9 - |bits|)
    requires after == if bits[|bits| - 1] then before[|bits| - 1 := true] else before
    ensures after == bits + Repeat(false, 8 - |bits|)
  {
  }

  lemma {:induction false} PackPacks(bits: seq<bool>)
    ensures Packs(Pack(bits), bits)
  {
    if bits == [] {
    } else if |bits| <= 8 {
      PackByteBits(bits);
      FlatSingle(PackByte(bits));
    } else {
      PackByteBits(bits[..8]);
      PackPacks(bits[8..]);
      assert Pack(bits)[1..] == Pack(bits[8..]);
    }
  }

  /** The canonical packing is the packing of the whole sequence at once. */
  lemma PacksIsPack(buffer: seq<bv8>, bits: seq<bool>)
    ensures Packs(buffer, bits) <==> buffer == Pack(bits)
  {
    PackPacks(bits);
    if Packs(buffer, bits) {
      FlatInjective(buffer, Pack(bits));
    }
  }
}
