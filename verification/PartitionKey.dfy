/** Partition keys: how the values of a row are rendered into a key, and how they are read back. */
module PartitionKeys {
  import opened Wrappers

  type Byte = x: int | 0 <= x < 256
  type Bytes = seq<Byte>

  const DELIMITER: Byte := 0x7C // '|'
  const VALUE_NULL: Byte := 0x21 // '!'
  const VALUE_EMPTY: Byte := 0x5E // '^'
  const PART_TRUNCATED: Byte := 0x23 // '#'
  const PERCENT: Byte := 0x25 // '%'
  const MAX_PART_LEN: nat := 200
  const MAX_PARTS: nat := 8

  // ---------- percent encoding ----------

  /** ASCII controls, the reserved characters, and everything that is not ASCII. */
  predicate Reserved(b: Byte) {
    || b < 0x20 || 0x7F <= b
    || b == DELIMITER || b == VALUE_NULL || b == VALUE_EMPTY || b == PART_TRUNCATED || b == PERCENT
  }

  /** Upper-case hexadecimal digit. */
  function HexDigit(n: nat): (c: Byte)
    requires n < 16
  {
    if n < 10 then 0x30 + n else 0x41 + n - 10
  }

  /** The value of a hexadecimal digit of either case. */
  function HexValue(c: Byte): (r: Option<nat>)
    ensures r.Some? ==> r.value < 16
  {
    if 0x30 <= c <= 0x39 then Some(c - 0x30)
    else if 0x41 <= c <= 0x46 then Some(c - 0x41 + 10)
    else if 0x61 <= c <= 0x66 then Some(c - 0x61 + 10)
    else None
  }

  function EncodeByte(b: Byte): (r: Bytes) {
    if Reserved(b) then [PERCENT, HexDigit(b / 16), HexDigit(b % 16)] else [b]
  }

  /** The digits 0 to 9 and A to F. */
  const HEX: Bytes :=
    [0x30, 0x31, 0x32, 0x33, 0x34, 0x35, 0x36, 0x37, 0x38, 0x39, 0x41, 0x42, 0x43, 0x44, 0x45, 0x46]

  /** From the space to the tilde everything but five characters stands for itself; all other bytes are written as a
      percent sign and two digits. */
  lemma EncodedForm(b: Byte)
    ensures EncodeByte(b) ==
      if 0x20 <= b <= 0x7E && b !in {0x21, 0x23, 0x25, 0x5E, 0x7C} then [b] else [0x25, HEX[b / 16], HEX[b % 16]]
  {
    DigitIs(b / 16);
    DigitIs(b % 16);
  }

  lemma DigitIs(n: nat)
    requires n < 16
    ensures HexDigit(n) == HEX[n]
  {
  }

  /** Digits are read in either case, and nothing else is read as one. */
  lemma DigitRead(c: Byte, n: nat)
    requires n < 16
    ensures HexValue(c) == Some(n) <==> c == HEX[n] || (n >= 10 && c == HEX[n] + 0x20)
  {
    DigitIs(n);
  }

  function Encode(s: Bytes): (r: Bytes) {
    if s == [] then [] else EncodeByte(s[0]) + Encode(s[1..])
  }

  /** Decodes escapes; a percent sign that starts no escape stands for itself. */
  function Decode(s: Bytes): (r: Bytes)
    ensures s != [] ==> r != []
  {
    if s == [] then []
    else if s[0] == PERCENT && |s| >= 3 && HexValue(s[1]).Some? && HexValue(s[2]).Some? then
      [16 * HexValue(s[1]).value + HexValue(s[2]).value] + Decode(s[3..])
    else [s[0]] + Decode(s[1..])
  }

  lemma Assoc(a: Bytes, b: Bytes, c: Bytes)
    ensures a + b + c == a + (b + c)
  {
  }

  lemma DecodeEncodedByte(b: Byte, t: Bytes)
    ensures Decode(EncodeByte(b) + t) == [b] + Decode(t)
  {
    var s := EncodeByte(b) + t;
    if Reserved(b) {
      assert HexValue(HexDigit(b / 16)) == Some(b / 16) && HexValue(HexDigit(b % 16)) == Some(b % 16);
      assert s[0] == PERCENT && s[1] == HexDigit(b / 16) && s[2] == HexDigit(b % 16) && s[3..] == t;
    } else {
      assert s[0] == b && s[1..] == t;
    }
  }

  /** Decoding reads an encoded value back, whatever follows it. */
  lemma {:induction false} DecodeEncode(s: Bytes, t: Bytes)
    ensures Decode(Encode(s) + t) == s + Decode(t)
  {
    if s == [] {
      assert Encode(s) + t == t;
    } else {
      hide EncodeByte, Decode;
      DecodeEncode(s[1..], t);
      DecodeEncodedByte(s[0], Encode(s[1..]) + t);
      Assoc(EncodeByte(s[0]), Encode(s[1..]), t);
      Assoc([s[0]], s[1..], Decode(t));
      assert [s[0]] + s[1..] == s;
    }
  }

  lemma {:induction false} EncodeConcat(a: Bytes, b: Bytes)
    ensures Encode(a + b) == Encode(a) + Encode(b)
  {
    if a == [] {
      assert a + b == b;
    } else {
      hide EncodeByte;
      EncodeConcat(a[1..], b);
      assert (a + b)[1..] == a[1..] + b;
      Assoc(EncodeByte(a[0]), Encode(a[1..]), Encode(b));
    }
  }

  /** No marker or delimiter survives encoding. */
  lemma {:induction false} EncodeHidesMarkers(s: Bytes)
    ensures forall i :: 0 <= i < |Encode(s)| ==>
      && Encode(s)[i] != DELIMITER && Encode(s)[i] != VALUE_NULL
      && Encode(s)[i] != VALUE_EMPTY && Encode(s)[i] != PART_TRUNCATED
  {
    if s != [] {
      EncodeHidesMarkers(s[1..]);
    }
  }

  lemma EncodeEmpty(s: Bytes)
    ensures Encode(s) == [] <==> s == []
  {
    if s != [] {
      assert |EncodeByte(s[0])| > 0;
    }
  }

  // ---------- rendering a part ----------

  function Concat(gs: seq<Bytes>): (s: Bytes) {
    if gs == [] then [] else gs[0] + Concat(gs[1..])
  }

  /** The leading graphemes whose encodings together stay below the limit, `used` bytes being spent. */
  function Fitting(gs: seq<Bytes>, used: nat): (taken: seq<Bytes>) {
    if gs == [] || used + |Encode(gs[0])| >= MAX_PART_LEN then []
    else [gs[0]] + Fitting(gs[1..], used + |Encode(gs[0])|)
  }

  /** Renders a value that is present. `gs` is its segmentation into graphemes. */
  function EncodePart(s: Bytes, gs: seq<Bytes>): (part: Bytes)
    requires Concat(gs) == s
  {
    var encoded := Encode(s);
    if |encoded| == 0 then [VALUE_EMPTY]
    else if |encoded| <= MAX_PART_LEN then encoded
    else Encode(Concat(Fitting(gs, 0))) + [PART_TRUNCATED]
  }

  predicate Truncated(s: Bytes) {
    |Encode(s)| > MAX_PART_LEN
  }

  lemma {:induction false} FittingPrefix(gs: seq<Bytes>, used: nat)
    ensures Concat(Fitting(gs, used)) <= Concat(gs)
    ensures used < MAX_PART_LEN ==> used + |Encode(Concat(Fitting(gs, used)))| < MAX_PART_LEN
  {
    hide Encode;
    if gs == [] || used + |Encode(gs[0])| >= MAX_PART_LEN {
      EncodeEmpty([]);
    } else {
      var rest := Fitting(gs[1..], used + |Encode(gs[0])|);
      FittingPrefix(gs[1..], used + |Encode(gs[0])|);
      assert Fitting(gs, used)[1..] == rest;
      assert Concat(Fitting(gs, used)) == gs[0] + Concat(rest);
      EncodeConcat(gs[0], Concat(rest));
    }
  }

  /** As many leading graphemes as fit are taken: one more would reach the limit. */
  lemma {:induction false} FittingMaximal(gs: seq<Bytes>, used: nat)
    ensures Fitting(gs, used) <= gs
    ensures
      var taken := Fitting(gs, used);
      |taken| < |gs| ==> used + |Encode(Concat(taken))| + |Encode(gs[|taken|])| >= MAX_PART_LEN
  {
    hide Encode;
    EncodeEmpty([]);
    if gs != [] && used + |Encode(gs[0])| < MAX_PART_LEN {
      var rest := Fitting(gs[1..], used + |Encode(gs[0])|);
      FittingMaximal(gs[1..], used + |Encode(gs[0])|);
      assert Fitting(gs, used)[1..] == rest;
      EncodeConcat(gs[0], Concat(rest));
    }
  }

  /** A rendered part is never empty, never too long, and holds no delimiter. */
  lemma PartShape(s: Bytes, gs: seq<Bytes>)
    requires Concat(gs) == s
    ensures 0 < |EncodePart(s, gs)| <= MAX_PART_LEN && DELIMITER !in EncodePart(s, gs)
  {
    EncodeHidesMarkers(s);
    EncodeHidesMarkers(Concat(Fitting(gs, 0)));
    FittingPrefix(gs, 0);
  }

  // ---------- reading a part back ----------

  /** A value read back from a key. */
  datatype ColumnValue =
    | Identity(value: Bytes)
    | Prefix(value: Bytes)
    | Datetime(begin: int, end: int)
  {
    /** Whether this value is a prefix of `other`. */
    predicate IsPrefixMatchOf(other: Bytes) {
      match this
      case Identity(v) => v <= other
      case Prefix(v) => v <= other
      case Datetime(_, _) => false
    }

    /** Whether this value is known to be exactly `other`. */
    predicate Equals(other: Bytes) {
      Identity? && value == other
    }
  }

  function ParseTagValue(part: Bytes): (r: Option<ColumnValue>) {
    if part == [VALUE_NULL] then None
    else
      var value := if part == [VALUE_EMPTY] then [] else part;
      var decoded := Decode(value);
      if value != [] && value[|value| - 1] == PART_TRUNCATED then
        Some(Prefix(decoded[..|decoded| - 1]))
      else Some(Identity(decoded))
  }

  /** An untruncated part reads back as exactly the value; a truncated one as a prefix of it. */
  lemma ParseEncodedPart(s: Bytes, gs: seq<Bytes>)
    requires Concat(gs) == s
    ensures !Truncated(s) ==> ParseTagValue(EncodePart(s, gs)) == Some(Identity(s))
    ensures Truncated(s) ==>
      ParseTagValue(EncodePart(s, gs)) == Some(Prefix(Concat(Fitting(gs, 0)))) && Concat(Fitting(gs, 0)) <= s
  {
    if !Truncated(s) {
      ParseWhole(s);
    } else {
      FittingPrefix(gs, 0);
      ParseCut(Concat(Fitting(gs, 0)));
    }
  }

  lemma ParseWhole(s: Bytes)
    ensures ParseTagValue(if s == [] then [VALUE_EMPTY] else Encode(s)) == Some(Identity(s))
    ensures Encode(s) == [] <==> s == []
  {
    hide Encode;
    EncodeEmpty(s);
    EncodeHidesMarkers(s);
    DecodeEncode(s, []);
    assert Encode(s) + [] == Encode(s) && s + [] == s;
  }

  lemma ParseCut(p: Bytes)
    ensures ParseTagValue(Encode(p) + [PART_TRUNCATED]) == Some(Prefix(p))
  {
    hide Encode;
    DecodeEncode(p, [PART_TRUNCATED]);
    assert Decode([PART_TRUNCATED]) == [PART_TRUNCATED];
    assert (p + [PART_TRUNCATED])[..|p|] == p;
  }

  // ---------- whole keys ----------

  function Join(parts: seq<Bytes>): (key: Bytes)
    requires parts != []
  {
    if |parts| == 1 then parts[0] else parts[0] + [DELIMITER] + Join(parts[1..])
  }

  function Split(key: Bytes): (parts: seq<Bytes>)
    ensures parts != []
  {
    if key == [] then [[]]
    else if key[0] == DELIMITER then [[]] + Split(key[1..])
    else
      var rest := Split(key[1..]);
      [[key[0]] + rest[0]] + rest[1..]
  }

  lemma {:induction false} SplitFirst(p: Bytes, key: Bytes)
    requires DELIMITER !in p
    ensures Split(p) == [p]
    ensures Split(p + [DELIMITER] + key) == [p] + Split(key)
  {
    var whole := p + [DELIMITER] + key;
    if p == [] {
      assert whole == [DELIMITER] + key;
    } else {
      SplitFirst(p[1..], key);
      assert p == [p[0]] + p[1..];
      assert whole[1..] == p[1..] + [DELIMITER] + key;
    }
  }

  lemma {:induction false} SplitJoin(parts: seq<Bytes>)
    requires parts != [] && forall i :: 0 <= i < |parts| ==> DELIMITER !in parts[i]
    ensures Split(Join(parts)) == parts
  {
    if |parts| == 1 {
      SplitFirst(parts[0], []);
    } else {
      SplitJoin(parts[1..]);
      SplitFirst(parts[0], Join(parts[1..]));
    }
  }

  datatype TemplatePart = TagValue(name: Bytes) | TimeFormat(format: Bytes)

  /** What a row holds for a template part: an optional tag value, or the rendered time; each with its
      grapheme segmentation. */
  datatype Cell = Null | Value(bytes: Bytes, graphemes: seq<Bytes>)

  ghost predicate WellFormedRow(template: seq<TemplatePart>, row: seq<Cell>) {
    && |row| == |template| && template != []
    && forall i :: 0 <= i < |row| ==>
      match row[i]
      case Null => template[i].TagValue?
      case Value(s, gs) => Concat(gs) == s
  }

  function RenderCell(c: Cell): (part: Bytes)
    requires c.Value? ==> Concat(c.graphemes) == c.bytes
  {
    match c
    case Null => [VALUE_NULL]
    case Value(s, gs) => EncodePart(s, gs)
  }

  ghost function RenderParts(row: seq<Cell>): (parts: seq<Bytes>)
    requires forall i :: 0 <= i < |row| ==> row[i].Value? ==> Concat(row[i].graphemes) == row[i].bytes
  {
    seq(|row|, i requires 0 <= i < |row| => RenderCell(row[i]))
  }

  /** The partition key of a row. */
  ghost function Key(template: seq<TemplatePart>, row: seq<Cell>): (key: Bytes)
    requires WellFormedRow(template, row)
  {
    Join(RenderParts(row))
  }

  const TIME_COLUMN_NAME: Bytes := [0x74, 0x69, 0x6D, 0x65]

  /** Reads the parts of a key back, pairing them with the template and dropping what has no value. */
  function ColumnValuesOf(
    template: seq<TemplatePart>, parts: seq<Bytes>, parseTime: (Bytes, Bytes) -> Option<ColumnValue>)
    : (r: seq<(Bytes, ColumnValue)>)
  {
    if template == [] || parts == [] then []
    else
      var v := match template[0]
        case TagValue(_) => ParseTagValue(parts[0])
        case TimeFormat(f) => parseTime(parts[0], f);
      var name := match template[0] case TagValue(n) => n case TimeFormat(_) => TIME_COLUMN_NAME;
      (if v.Some? then [(name, v.value)] else []) + ColumnValuesOf(template[1..], parts[1..], parseTime)
  }

  function BuildColumnValues(template: seq<TemplatePart>, key: Bytes, parseTime: (Bytes, Bytes) -> Option<ColumnValue>)
    : (r: seq<(Bytes, ColumnValue)>)
  {
    ColumnValuesOf(template, Split(key), parseTime)
  }

  /** What is known of a cell after a round trip through the key. */
  ghost function Known(c: Cell): (r: Option<ColumnValue>)
    requires c.Value? ==> Concat(c.graphemes) == c.bytes
  {
    match c
    case Null => None
    case Value(s, gs) => Some(if Truncated(s) then Prefix(Concat(Fitting(gs, 0))) else Identity(s))
  }

  ghost function KnownValues(
    template: seq<TemplatePart>, row: seq<Cell>, parseTime: (Bytes, Bytes) -> Option<ColumnValue>)
    : (r: seq<(Bytes, ColumnValue)>)
    requires |row| == |template|
    requires forall i :: 0 <= i < |row| ==> row[i].Value? ==> Concat(row[i].graphemes) == row[i].bytes
  {
    if row == [] then []
    else
      (match template[0]
       case TagValue(name) =>
         (match Known(row[0]) case None => [] case Some(v) => [(name, v)])
       case TimeFormat(f) =>
         (match parseTime(RenderCell(row[0]), f) case None => [] case Some(v) => [(TIME_COLUMN_NAME, v)]))
      + KnownValues(template[1..], row[1..], parseTime)
  }

  lemma PartsHaveNoDelimiter(template: seq<TemplatePart>, row: seq<Cell>)
    requires WellFormedRow(template, row)
    ensures forall i :: 0 <= i < |row| ==>
      DELIMITER !in RenderParts(row)[i] && 0 < |RenderParts(row)[i]| <= MAX_PART_LEN
  {
    forall i | 0 <= i < |row|
      ensures DELIMITER !in RenderParts(row)[i] && 0 < |RenderParts(row)[i]| <= MAX_PART_LEN
    {
      if row[i].Value? {
        PartShape(row[i].bytes, row[i].graphemes);
      }
    }
  }

  /** The key of a template has as many parts as the template, and they are the rendered ones. */
  lemma KeyParts(template: seq<TemplatePart>, row: seq<Cell>)
    requires WellFormedRow(template, row)
    ensures Split(Key(template, row)) == RenderParts(row)
  {
    PartsHaveNoDelimiter(template, row);
    SplitJoin(RenderParts(row));
  }

  lemma ParseKnown(c: Cell)
    requires c.Value? ==> Concat(c.graphemes) == c.bytes
    ensures ParseTagValue(RenderCell(c)) == Known(c)
  {
    if c.Value? {
      ParseEncodedPart(c.bytes, c.graphemes);
    }
  }

  lemma {:induction false} ReadBack(template: seq<TemplatePart>, row: seq<Cell>, parts: seq<Bytes>,
                                    parseTime: (Bytes, Bytes) -> Option<ColumnValue>)
    requires |template| == |row| == |parts|
    requires forall i :: 0 <= i < |row| ==> row[i].Value? ==> Concat(row[i].graphemes) == row[i].bytes
    requires forall i :: 0 <= i < |row| ==> parts[i] == RenderCell(row[i])
    ensures ColumnValuesOf(template, parts, parseTime) == KnownValues(template, row, parseTime)
  {
    if row != [] {
      ParseKnown(row[0]);
      ReadBack(template[1..], row[1..], parts[1..], parseTime);
    }
  }

  /** Reading a key back with its template yields exactly what is known of each cell: nothing for a
      null, the value itself (an empty one included), or a prefix of a truncated value. */
  lemma KeyRoundTrip(template: seq<TemplatePart>, row: seq<Cell>, parseTime: (Bytes, Bytes) -> Option<ColumnValue>)
    requires WellFormedRow(template, row)
    ensures BuildColumnValues(template, Key(template, row), parseTime) == KnownValues(template, row, parseTime)
  {
    KeyParts(template, row);
    ReadBack(template, row, RenderParts(row), parseTime);
  }

  predicate Plain(s: Bytes) {
    forall b :: b in s ==> !Reserved(b)
  }

  lemma {:induction false} EncodeKeepsPlain(s: Bytes)
    ensures |s| <= |Encode(s)| && (|Encode(s)| == |s| <==> Plain(s)) && (Encode(s) == s <==> Plain(s))
  {
    if s != [] {
      EncodeKeepsPlain(s[1..]);
      assert s == [s[0]] + s[1..];
    }
  }

  /** A rendered time is read without decoding it. What is read is the text that was rendered exactly when the text is
      not empty, holds no reserved byte and is not truncated; a text that ends like a truncated part is set aside. */
  lemma TimeTextKeptIff(s: Bytes, gs: seq<Bytes>)
    requires Concat(gs) == s
    ensures !Truncated(s) || s == [] || s[|s| - 1] != PART_TRUNCATED ==>
      (EncodePart(s, gs) == s <==> s != [] && Plain(s) && |s| <= MAX_PART_LEN)
  {
    hide Encode;
    EncodeKeepsPlain(s);
    EncodeEmpty(s);
    if Truncated(s) {
      var part := EncodePart(s, gs);
      assert part[|part| - 1] == PART_TRUNCATED;
    }
  }

  /** What a key says of a tag value is true of it, and decides equality unless it was truncated. What it matches are
      exactly the values that start with what is known. */
  lemma KnownIsSound(s: Bytes, gs: seq<Bytes>, other: Bytes)
    requires Concat(gs) == s
    ensures
      var v := Known(Value(s, gs)).value;
      && v.IsPrefixMatchOf(s)
      && (v.IsPrefixMatchOf(other) <==>
            |v.value| <= |other| && forall k :: 0 <= k < |v.value| ==> other[k] == v.value[k])
      && (v.Equals(other) <==> !Truncated(s) && other == s)
  {
    FittingPrefix(gs, 0);
  }

  /** A time range neither equals nor matches any text. */
  lemma RangeMatchesNone(begin: int, end: int, other: Bytes)
    ensures !Datetime(begin, end).IsPrefixMatchOf(other) && !Datetime(begin, end).Equals(other)
  {
  }

  /** Rows without truncated values have equal keys only if they agree on every cell. */
  lemma KeyInjective(template: seq<TemplatePart>, a: seq<Cell>, b: seq<Cell>)
    requires WellFormedRow(template, a) && WellFormedRow(template, b)
    requires Key(template, a) == Key(template, b)
    ensures forall i :: 0 <= i < |a| ==> Known(a[i]) == Known(b[i])
    ensures forall i ::
      0 <= i < |a| && a[i].Value? && !Truncated(a[i].bytes) ==> b[i].Value? && b[i].bytes == a[i].bytes
  {
    KeyParts(template, a);
    KeyParts(template, b);
    forall i | 0 <= i < |a| ensures Known(a[i]) == Known(b[i]) {
      assert RenderParts(a)[i] == RenderParts(b)[i];
      ParseKnown(a[i]);
      ParseKnown(b[i]);
    }
    forall i | 0 <= i < |a| && a[i].Value? && !Truncated(a[i].bytes)
      ensures b[i].Value? && b[i].bytes == a[i].bytes
    {
      assert Known(a[i]) == Known(b[i]);
    }
  }

  lemma {:induction false} JoinLength(parts: seq<Bytes>)
    requires parts != [] && forall i :: 0 <= i < |parts| ==> |parts[i]| <= MAX_PART_LEN
    ensures |Join(parts)| <= |parts| * MAX_PART_LEN + |parts| - 1
  {
    if |parts| > 1 {
      JoinLength(parts[1..]);
    }
  }

  /** A key of a valid template is at most 1607 bytes long. */
  lemma KeyLength(template: seq<TemplatePart>, row: seq<Cell>)
    requires WellFormedRow(template, row) && |template| <= MAX_PARTS
    ensures 0 < |Key(template, row)| <= 1607
  {
    PartsHaveNoDelimiter(template, row);
    JoinLength(RenderParts(row));
  }
}
