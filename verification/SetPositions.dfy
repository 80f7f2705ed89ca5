/** Iteration over the set bits of a packed buffer. */
module SetPositions {
  import opened Bits
  import opened BitSets
  import opened Wrappers

  /** The positions of the set bits from `from` on, in order. */
  ghost function Positions(bits: seq<bool>, from: nat): (ps: seq<nat>)
    decreases |bits| - from
  {
    if |bits| <= from then []
    else (if bits[from] then [from] else []) + Positions(bits, from + 1)
  }

  /** `Positions` lists exactly the set positions, in strictly increasing order. */
  lemma {:induction false} PositionsExact(bits: seq<bool>, from: nat)
    ensures
      var ps := Positions(bits, from);
      && (forall k :: k in ps <==> from <= k < |bits| && bits[k])
      && (forall i, j :: 0 <= i < j < |ps| ==> ps[i] < ps[j])
    decreases |bits| - from
  {
    if from < |bits| {
      PositionsExact(bits, from + 1);
      var rest := Positions(bits, from + 1);
      assert Positions(bits, from) == (if bits[from] then [from] else []) + rest;
      forall k ensures k in Positions(bits, from) <==> from <= k < |bits| && bits[k] {
      }
      forall j | 0 <= j < |rest| ensures from < rest[j] {
        assert rest[j] in rest;
      }
    }
  }

  lemma {:induction false} PositionsSkip(bits: seq<bool>, from: nat, to: nat)
    requires from <= to <= |bits| && forall k :: from <= k < to ==> !bits[k]
    ensures Positions(bits, from) == Positions(bits, to)
    decreases |bits| - from
  {
    if from < to {
      PositionsSkip(bits, from + 1, to);
    }
  }

  /** Only the bits from `from` on matter. */
  lemma {:induction false} PositionsAgree(a: seq<bool>, b: seq<bool>, from: nat)
    requires |a| == |b| && forall k :: from <= k < |a| ==> a[k] == b[k]
    ensures Positions(a, from) == Positions(b, from)
    decreases |a| - from
  {
    if from < |a| {
      PositionsAgree(a, b, from + 1);
      assert a[from] == b[from];
    }
  }

  /** Taking the first set bit away takes the first position away. */
  lemma TakeFirst(bits: seq<bool>, p: nat)
    requires p < |bits| && bits[p] && forall k :: 0 <= k < p ==> !bits[k]
    ensures Positions(bits, 0) == [p] + Positions(bits[p := false], 0)
  {
    PositionsSkip(bits, 0, p);
    PositionsSkip(bits[p := false], 0, p + 1);
    PositionsAgree(bits, bits[p := false], p + 1);
  }

  ghost predicate NoneSet(bits: seq<bool>) {
    forall k :: 0 <= k < |bits| ==> !bits[k]
  }

  lemma NoneLeft(bits: seq<bool>)
    requires NoneSet(bits)
    ensures Positions(bits, 0) == []
  {
    PositionsSkip(bits, 0, |bits|);
  }

  /** The bits still to be reported, when `row` is what is left of byte `i`. */
  ghost function PendingBits(flat: seq<bool>, i: nat, row: seq<bool>): (bits: seq<bool>)
    requires |row| == 8
    ensures |bits| == |flat|
  {
    seq(|flat|, k requires 0 <= k < |flat| =>
      if k < 8 * i then false else if k < 8 * i + 8 then row[k - 8 * i] else flat[k])
  }

  /** The smallest set bit of a non-zero byte. */
  method TrailingZeros(b: bv8) returns (n: nat)
    requires b != 0
    ensures n < 8 && ByteBits(b)[n] && forall i :: 0 <= i < n ==> !ByteBits(b)[i]
  {
    n := 0;
    while n < 8 && (b >> n) & 1 == 0
      invariant 0 <= n <= 8
      invariant forall i :: 0 <= i < n ==> !Bit(b, i)
    {
      n := n + 1;
    }
    if n == 8 {
      AllClear(b);
      assert false;
    }
  }

  lemma AllClear(b: bv8)
    requires forall i :: 0 <= i < 8 ==> !Bit(b, i)
    ensures b == 0
  {
    ZeroBits();
    assert ByteBits(b) == Repeat(false, 8);
    ByteExtensional(b, 0);
  }

  method ClearBit(b: bv8, n: nat) returns (r: bv8)
    requires n < 8 && ByteBits(b)[n]
    ensures ByteBits(r) == ByteBits(b)[n := false]
  {
    r := b ^ (1 << n);
    ToggledBits(b, n, r);
  }

  method ClearBelow(b: bv8, s: nat) returns (r: bv8)
    requires s < 8
    ensures ByteBits(r) == Repeat(false, s) + ByteBits(b)[s..]
  {
    r := b & (0xFF << s);
    HighMaskedBits(b, s, r);
  }

  class SetPositionIter {
    const bytes: seq<bv8>
    var byteIdx: nat
    var inProgress: bv8

    /** Past the end of the buffer nothing is in progress. */
    ghost predicate Valid()
      reads this
    {
      |bytes| <= byteIdx ==> inProgress == 0
    }

    ghost function Pending(): (bits: seq<bool>)
      reads this
    {
      PendingBits(Flat(bytes), byteIdx, ByteBits(inProgress))
    }

    ghost function Remaining(): (ps: seq<nat>)
      reads this
    {
      Positions(Pending(), 0)
    }

    constructor (bytes: seq<bv8>, offset: nat)
      ensures Valid() && this.bytes == bytes
      ensures Remaining() == Positions(Flat(bytes), offset)
    {
      this.bytes := bytes;
      var i := offset / 8;
      var b := if i < |bytes| then bytes[i] else 0;
      var masked := ClearBelow(b, offset % 8);
      this.byteIdx := i;
      this.inProgress := masked;
      new;
      InitialPending(bytes, offset, b, masked);
      if |bytes| <= i {
        NothingBelow(masked, offset % 8);
      }
    }

    /** Reports the next set position, if any is left. */
    method Next() returns (r: Option<nat>)
      requires Valid()
      modifies this
      ensures Valid()
      ensures r == if old(Remaining()) == [] then None else Some(old(Remaining())[0])
      ensures Remaining() == if r == None then [] else old(Remaining())[1..]
    {
      hide Flat, ByteBits, PendingBits, Positions;
      while inProgress == 0
        invariant Valid() && Pending() == old(Pending())
        decreases |bytes| - byteIdx
      {
        AdvancePending(bytes, byteIdx);
        byteIdx := byteIdx + 1;
        if |bytes| <= byteIdx {
          NoneLeft(old(Pending()));
          NoneLeft(Pending());
          return None;
        }
        inProgress := bytes[byteIdx];
      }
      var bitPos := TrailingZeros(inProgress);
      ReportPending(Flat(bytes), byteIdx, ByteBits(inProgress), bitPos);
      TakeFirst(Pending(), 8 * byteIdx + bitPos);
      inProgress := ClearBit(inProgress, bitPos);
      r := Some(8 * byteIdx + bitPos);
    }
  }

  lemma InitialPending(bytes: seq<bv8>, offset: nat, b: bv8, masked: bv8)
    requires b == if offset / 8 < |bytes| then bytes[offset / 8] else 0
    requires ByteBits(masked) == Repeat(false, offset % 8) + ByteBits(b)[offset % 8..]
    ensures Positions(PendingBits(Flat(bytes), offset / 8, ByteBits(masked)), 0) == Positions(Flat(bytes), offset)
  {
    hide Flat, ByteBits;
    var i, s := offset / 8, offset % 8;
    var bits := PendingBits(Flat(bytes), i, ByteBits(masked));
    if |bytes| <= i {
      NoneLeft(bits);
    } else {
      ByteOfFlat(bytes, i);
      PendingFrom(Flat(bytes), i, s, ByteBits(b), ByteBits(masked));
      PositionsSkip(bits, 0, offset);
      PositionsAgree(bits, Flat(bytes), offset);
    }
  }

  lemma PendingFrom(flat: seq<bool>, i: nat, s: nat, row: seq<bool>, masked: seq<bool>)
    requires 8 * i + 8 <= |flat| && s < 8 && row == flat[8 * i..8 * i + 8]
    requires masked == Repeat(false, s) + row[s..]
    ensures forall k :: 0 <= k < 8 * i + s ==> !PendingBits(flat, i, masked)[k]
    ensures forall k :: 8 * i + s <= k < |flat| ==> PendingBits(flat, i, masked)[k] == flat[k]
  {
    forall k | 8 * i + s <= k < 8 * i + 8 ensures masked[k - 8 * i] == flat[k] {
      assert row[k - 8 * i] == flat[k];
    }
  }

  /** Masking nothing leaves nothing. */
  lemma NothingBelow(masked: bv8, s: nat)
    requires s < 8 && ByteBits(masked) == Repeat(false, s) + ByteBits(0)[s..]
    ensures masked == 0
  {
    hide ByteBits;
    ZeroBits();
    assert Repeat(false, s) + Repeat(false, 8)[s..] == Repeat(false, 8);
    ByteExtensional(masked, 0);
  }

  /** An empty byte can be skipped; behind the last byte nothing is pending. */
  lemma AdvancePending(bytes: seq<bv8>, i: nat)
    ensures i + 1 < |bytes| ==>
      PendingBits(Flat(bytes), i, ByteBits(0)) == PendingBits(Flat(bytes), i + 1, ByteBits(bytes[i + 1]))
    ensures |bytes| <= i + 1 ==>
      NoneSet(PendingBits(Flat(bytes), i, ByteBits(0))) && NoneSet(PendingBits(Flat(bytes), i + 1, ByteBits(0)))
  {
    hide Flat, ByteBits, PendingBits;
    ZeroBits();
    if i + 1 < |bytes| {
      ByteOfFlat(bytes, i + 1);
      AdvanceRows(Flat(bytes), i, ByteBits(bytes[i + 1]));
    } else {
      EndRows(Flat(bytes), i);
      EndRows(Flat(bytes), i + 1);
    }
  }

  lemma EndRows(flat: seq<bool>, i: nat)
    requires |flat| <= 8 * i + 8
    ensures NoneSet(PendingBits(flat, i, Repeat(false, 8)))
  {
  }

  lemma AdvanceRows(flat: seq<bool>, i: nat, row: seq<bool>)
    requires 8 * i + 16 <= |flat| && row == flat[8 * i + 8..8 * i + 16]
    ensures PendingBits(flat, i, Repeat(false, 8)) == PendingBits(flat, i + 1, row)
  {
  }

  /** The smallest set bit of the current byte is the first pending one. */
  lemma ReportPending(flat: seq<bool>, i: nat, row: seq<bool>, n: nat)
    requires 8 * i + 8 <= |flat| && |row| == 8
    requires n < 8 && row[n] && forall k :: 0 <= k < n ==> !row[k]
    ensures
      var bits := PendingBits(flat, i, row);
      var p := 8 * i + n;
      && bits[p] && (forall k :: 0 <= k < p ==> !bits[k])
      && PendingBits(flat, i, row[n := false]) == bits[p := false]
  {
  }

  /** Draining the iterator lists the set positions from the offset on. */
  method Collect(bytes: seq<bv8>, offset: nat) returns (ps: seq<nat>)
    ensures ps == Positions(Flat(bytes), offset)
  {
    hide Flat, ByteBits, PendingBits, Positions;
    var it := new SetPositionIter(bytes, offset);
    ps := [];
    var next := it.Next();
    while next != None
      invariant fresh(it) && it.Valid()
      invariant next == None ==> ps == Positions(Flat(bytes), offset)
      invariant next != None ==> ps + [next.value] + it.Remaining() == Positions(Flat(bytes), offset)
      decreases if next == None then 0 else 1 + |it.Remaining()|
    {
      ps := ps + [next.value];
      next := it.Next();
    }
  }
}
