/** Whole histories of a bit mask: whatever mix of appends and truncations built it, its bytes are
    the bytes of packing the resulting booleans in one go. */
module BitSetRuns {
  import opened Bits
  import opened BitSets

  datatype Op =
    | AppendBits(count: nat, toSet: seq<bv8>)
    | AppendSet(count: nat)
    | AppendUnset(count: nat)
    | Truncate(newLen: nat)

  /** What the byte-slice length assertion and truncation ask of a caller. */
  ghost predicate Legal(bits: seq<bool>, op: Op) {
    match op
    case AppendBits(count, toSet) => |toSet| == (count + 7) / 8
    case Truncate(newLen) => newLen <= |bits|
    case _ => true
  }

  ghost function Apply(bits: seq<bool>, op: Op): (r: seq<bool>)
    requires Legal(bits, op)
  {
    match op
    case AppendBits(count, toSet) => bits + Unpack(toSet, count)
    case AppendSet(count) => bits + Repeat(true, count)
    case AppendUnset(count) => bits + Repeat(false, count)
    case Truncate(newLen) => bits[..newLen]
  }

  ghost predicate LegalRun(bits: seq<bool>, ops: seq<Op>)
    decreases |ops|
  {
    ops == [] || (Legal(bits, ops[0]) && LegalRun(Apply(bits, ops[0]), ops[1..]))
  }

  ghost function RunBits(bits: seq<bool>, ops: seq<Op>): (r: seq<bool>)
    requires LegalRun(bits, ops)
    decreases |ops|
  {
    if ops == [] then bits else RunBits(Apply(bits, ops[0]), ops[1..])
  }

  method Step(mask: BitSet, op: Op)
    requires mask.Valid() && Legal(mask.Bits(), op)
    modifies mask
    ensures mask.Valid() && mask.Bits() == Apply(old(mask.Bits()), op)
  {
    match op
    case AppendBits(count, toSet) => mask.AppendBits(count, toSet);
    case AppendSet(count) => mask.AppendSet(count);
    case AppendUnset(count) => mask.AppendUnset(count);
    case Truncate(newLen) => mask.Truncate(newLen);
  }

  /** Any history ends in the canonical bytes of the booleans it denotes. */
  method Run(ops: seq<Op>) returns (buffer: seq<bv8>)
    requires LegalRun([], ops)
    ensures buffer == Pack(RunBits([], ops))
  {
    var mask := new BitSet();
    var i := 0;
    while i < |ops|
      invariant 0 <= i <= |ops|
      invariant mask.Valid() && fresh(mask)
      invariant LegalRun(mask.Bits(), ops[i..])
      invariant RunBits(mask.Bits(), ops[i..]) == RunBits([], ops)
    {
      assert ops[i..][0] == ops[i] && ops[i..][1..] == ops[i + 1..];
      Step(mask, ops[i]);
      i := i + 1;
    }
    PacksIsPack(mask.buffer, mask.Bits());
    buffer := mask.buffer;
  }
}
