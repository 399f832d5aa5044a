/**
  The wire format in bytes: what records of every field type look like, what a
  reader makes of numbers that are too wide, of a field that comes twice, and of
  records of fields it does not have.
 */
module WireLaws {
  import opened Basics
  import opened Varint
  import opened Wire

  // -------------------------------------------------------------- records in bytes

  /** The record of field number 1. */
  function RecordOf(s: Schema, t: FieldType, v: Value): Bytes { Record(s, FieldDesc(1, t, false, ""), v) }

  /** The number whose bytes these are, lowest first. */
  function Sum(b: Bytes): nat { if b == [] then 0 else b[0] as nat + 256 * Sum(b[1..]) }

  lemma {:induction false} FixedSum(v: nat, n: nat)
    requires v < Pow256(n)
    ensures Sum(Fixed(v, n)) == v
    decreases n
  {
    if n > 0 { FixedSum(v / 256, n - 1); }
  }

  lemma {:induction false} SumOfFour(b: Bytes)
    requires |b| == 4
    ensures Sum(b) == b[0] as nat + 0x100 * b[1] as nat + 0x1_0000 * b[2] as nat + 0x100_0000 * b[3] as nat
  {
    assert Sum(b[1..][1..][1..][1..]) == 0;
    assert Sum(b[1..][1..][1..]) == b[3] as nat;
    assert Sum(b[1..][1..]) == b[2] as nat + 256 * b[3] as nat;
  }

  lemma {:induction false} SumOfEight(b: Bytes)
    requires |b| == 8
    ensures Sum(b) == Sum(b[..4]) + 0x1_0000_0000 * Sum(b[4..])
  {
    SumSplit(b, 4);
    assert Pow256(4) == 0x1_0000_0000 by { Pow256Values(); }
  }

  lemma {:induction false} SumSplit(b: Bytes, k: nat)
    requires k <= |b|
    ensures Sum(b) == Sum(b[..k]) + Pow256(k) * Sum(b[k..])
  {
    if k > 0 {
      assert b[..k][1..] == b[1..][..k - 1] && b[1..][k - 1..] == b[k..];
      SumSplit(b[1..], k - 1);
      MulAssoc(256, Pow256(k - 1), Sum(b[k..]));
    }
  }

  lemma MulAssoc(a: nat, b: nat, c: nat)
    ensures a * (b * c) == a * b * c
  {
  }

  lemma OneByteTag(t: FieldType, name: string)
    ensures VarUInt(Tag(FieldDesc(1, t, false, name))) ==
      if t == FLOAT || t == FIXED32 || t == SFIXED32 then [13]
      else if t == DOUBLE || t == FIXED64 || t == SFIXED64 then [9]
      else if t == STRING || t == BYTES || t == MSG then [10]
      else [8]
  {
  }

  /** The record of a field numbered 1: its tag and what follows it. */
  lemma {:induction false} RecordParts(s: Schema, t: FieldType, name: string, v: Value)
    ensures var d := FieldDesc(1, t, false, name);
      Record(s, d, v) == VarUInt(Tag(d)) +
        match v
        case Num(n) => Scalar(t, n)
        case Text(bytes) => VarUInt(|bytes|) + bytes
        case Nested(m) => VarUInt(|Encode(s, Fields(s, name), m)|) + Encode(s, Fields(s, name), m)
  {
    var d := FieldDesc(1, t, false, name);
    assert Payload(s, d, v) ==
      match v
      case Num(n) => Scalar(t, n)
      case Text(bytes) => VarUInt(|bytes|) + bytes
      case Nested(m) => VarUInt(|Encode(s, Fields(s, name), m)|) + Encode(s, Fields(s, name), m);
  }

  /** Numbers of four bytes: a tag that says so, then the two's complement from the lowest byte on. */
  lemma {:induction false} FourByteRecord(s: Schema, t: FieldType, n: int)
    requires InWidth(t, n) && (t == FLOAT || t == FIXED32 || t == SFIXED32)
    ensures var b := RecordOf(s, t, Num(n));
      && |b| == 5 && b[0] == 13
      && b[1] as int + 0x100 * b[2] as int + 0x1_0000 * b[3] as int + 0x100_0000 * b[4] as int
         == if n < 0 then n + 0x1_0000_0000 else n
  {
    OneByteTag(t, "");
    RecordParts(s, t, "", Num(n));
    Pow256Values();
    Modulo(n, 0x1_0000_0000);
    var f := Fixed(n % 0x1_0000_0000, 4);
    FixedSum(n % 0x1_0000_0000, 4);
    SumOfFour(f);
    hide Tag, Record, Fixed, Sum, Pow256, InWidth;
    assert RecordOf(s, t, Num(n)) == [13] + f;
  }

  /** Numbers of eight bytes likewise. */
  lemma {:induction false} EightByteRecord(s: Schema, t: FieldType, n: int)
    requires InWidth(t, n) && (t == DOUBLE || t == FIXED64 || t == SFIXED64)
    ensures var b := RecordOf(s, t, Num(n));
      && |b| == 9 && b[0] == 9
      && b[1] as int + 0x100 * b[2] as int + 0x1_0000 * b[3] as int + 0x100_0000 * b[4] as int
         + 0x1_0000_0000 * (b[5] as int + 0x100 * b[6] as int + 0x1_0000 * b[7] as int + 0x100_0000 * b[8] as int)
         == if n < 0 then n + 0x1_0000_0000_0000_0000 else n
  {
    OneByteTag(t, "");
    RecordParts(s, t, "", Num(n));
    Modulo(n, TWO_64);
    var f := Fixed(n % TWO_64, 8);
    EightBytes(n % TWO_64);
    hide Tag, Record, Fixed, InWidth;
    assert RecordOf(s, t, Num(n)) == [9] + f;
  }

  lemma {:induction false} EightBytes(v: nat)
    requires v < TWO_64
    ensures var f := Fixed(v, 8);
      v == f[0] as int + 0x100 * f[1] as int + 0x1_0000 * f[2] as int + 0x100_0000 * f[3] as int
        + 0x1_0000_0000 * (f[4] as int + 0x100 * f[5] as int + 0x1_0000 * f[6] as int + 0x100_0000 * f[7] as int)
  {
    Pow256Values();
    var f := Fixed(v, 8);
    FixedSum(v, 8);
    hide Fixed, Sum, Pow256;
    SumOfEight(f);
    SumOfFour(f[..4]);
    SumOfFour(f[4..]);
  }

  /** Numbers in groups of seven bits: unsigned ones as they are, signed ones and flags folded. */
  lemma {:induction false} VarintRecord(s: Schema, t: FieldType, n: int)
    requires InWidth(t, n)
    ensures t == UINT32 || t == UINT64 || t == ENUM ==> n >= 0 && RecordOf(s, t, Num(n)) == [8] + VarUInt(n)
    ensures t == INT32 || t == INT64 || t == SINT32 || t == SINT64 || t == BOOL ==>
      RecordOf(s, t, Num(n)) == [8] + VarUInt(if n >= 0 then 2 * n else -2 * n - 1)
  {
    OneByteTag(t, "");
    RecordParts(s, t, "", Num(n));
    if t == UINT32 || t == UINT64 || t == ENUM { Modulo(n, TWO_64); }
    hide Tag;
  }

  /** Strings: their length, then their bytes.  A nested message: the length of its encoding, then that. */
  lemma {:induction false} DelimitedRecord(s: Schema, t: FieldType, bytes: Bytes, name: string, m: Columns)
    ensures t == STRING || t == BYTES ==> RecordOf(s, t, Text(bytes)) == [10] + (VarUInt(|bytes|) + bytes)
    ensures var b := Encode(s, Fields(s, name), m);
      Record(s, FieldDesc(1, MSG, false, name), Nested(m)) == [10] + (VarUInt(|b|) + b)
  {
    OneByteTag(t, "");
    OneByteTag(MSG, name);
    RecordParts(s, t, "", Text(bytes));
    RecordParts(s, MSG, name, Nested(m));
    hide Tag, Record, Encode;
  }

  /** The groups of 300 and of 150. */
  lemma VarintExamples()
    ensures VarUInt(300) == [172, 2] && VarUInt(150) == [150, 1] && VarUInt(127) == [127] && VarUInt(128) == [128, 1]
  {
    assert VarUInt(2) == [2] && VarUInt(1) == [1];
  }

  // ------------------------------------------------------------ what is not written

  /** A singular field writes nothing exactly for zero, of either sign, and for the empty string. */
  lemma {:induction false} NothingWritten(s: Schema, d: FieldDesc, v: Value)
    requires Typed(s, d, v)
    ensures EncodeColumn(s, d, Cons(v, Nil)) == [] <==>
      && !d.repeated
      && (v == Num(0) || v == Text([]) || (d.ftype == FLOAT && v == Num(0x8000_0000))
          || (d.ftype == DOUBLE && v == Num(0x8000_0000_0000_0000)))
  {
    assert EncodeColumn(s, d, Nil) == [];
    VarUIntLength(Tag(d), 0);
    hide Tag;
  }

  /** A new builder holds zeros, empty strings, and nothing in repeated and message fields. */
  lemma {:induction false} NewBuilder(ds: seq<FieldDesc>, i: nat)
    requires i < |ds|
    ensures Width(Empty(ds)) == |ds|
    ensures ColumnAt(Empty(ds), i) ==
      if ds[i].repeated || ds[i].ftype == MSG then Nil
      else if ds[i].ftype == STRING || ds[i].ftype == BYTES then Cons(Text([]), Nil)
      else Cons(Num(0), Nil)
  {
    EmptyColumns(ds, i);
  }

  // --------------------------------------------------------------- other readers

  /** A reader that lacks a number field passes over its record, and over nothing else. */
  lemma {:induction false} OwnRecordSkipped(s: Schema, ds: seq<FieldDesc>, d: FieldDesc, n: int, rest: Bytes,
      m: Columns)
    requires 0 < d.num < WIDE && Typed(s, d, Num(n)) && forall i :: 0 <= i < |ds| ==> ds[i].num != d.num
    ensures Turn(s, ds, Whole(Record(s, d, Num(n)) + rest), m) == Goes(Whole(rest), m)
  {
    NarrowTag(d);
    var wt, payload := WireType(d.ftype), Scalar(d.ftype, n);
    assert wt < 8 && wt != 2 && InWidth(d.ftype, n) && Payload(s, d, Num(n)) == payload;
    assert IndexOf(ds, d.num) == |ds|;
    assert Record(s, d, Num(n)) == VarUInt(d.num * 8 + wt) + payload;
    hide *;
    NumberPassed(d.ftype, n, rest);
    DecodeUnknown(s, ds, d.num, wt, payload, rest, m);
  }

  lemma {:induction false} NumberPassed(t: FieldType, n: int, rest: Bytes)
    requires InWidth(t, n) && WireType(t) != 2
    ensures Pass(WireType(t), Whole(Scalar(t, n) + rest)) == Passed(Whole(rest))
  {
    if WireType(t) == 0 {
      var u := if t == UINT32 || t == UINT64 || t == ENUM then n % TWO_64 else ZigZag(n);
      ZigZagBijective(n, 0);
      VarUIntRoundTrip(u, rest);
      assert Scalar(t, n) == VarUInt(u);
    } else {
      SkipAll(Scalar(t, n), rest);
    }
  }

  /** Of two records of a singular field the later one counts; a repeated field gets both values in order. */
  lemma {:induction false} TwoRecords(s: Schema, d: FieldDesc, v: Value, w: Value)
    requires 0 < d.num < WIDE && Typed(s, d, v) && Typed(s, d, w) && !v.Nested? && !w.Nested?
    ensures DecodeAll(s, [d], Whole(Record(s, d, v) + Record(s, d, w)), Empty([d])) ==
      Message(Column(if d.repeated then Cons(v, Cons(w, Nil)) else Cons(w, Nil), NoMore))
  {
    var ds, xs := [d], [Known(d, v), Known(d, w)];
    ValueTakesBack(s, d, v);
    ValueTakesBack(s, d, w);
    assert xs[1..] == [Known(d, w)] && xs[1..][1..] == [];
    assert ItemsBytes(s, xs[1..]) == Record(s, d, w) + [] == Record(s, d, w);
    assert ItemsBytes(s, xs) == Record(s, d, v) + Record(s, d, w);
    hide Typed, TakesBack, Record, DecodeAll;
    DecodeItems(s, ds, xs, Empty(ds));
    assert ds[1..] == [];
    var one := Applied(s, ds, xs[0], Empty(ds));
    assert Empty(ds) == Column(DefaultColumn(d), Empty(ds[1..])) == Column(DefaultColumn(d), NoMore);
    assert IndexOf(ds, d.num) == 0;
    assert one == Column(Cons(v, Nil), NoMore);
    var two := Applied(s, ds, xs[1], one);
    assert Push(Nil, w) == Cons(w, Nil) && Push(Cons(v, Nil), w) == Cons(v, Push(Nil, w));
    assert two == Column(if d.repeated then Cons(v, Cons(w, Nil)) else Cons(w, Nil), NoMore);
    assert AppliedAll(s, ds, [], two) == two && AppliedAll(s, ds, xs[1..], one) == AppliedAll(s, ds, [], two);
    assert AppliedAll(s, ds, xs, Empty(ds)) == AppliedAll(s, ds, xs[1..], one);
  }

  /** A number that is too wide for its field keeps its low 32 bits; any but zero makes a flag true. */
  lemma {:induction false} NumbersAreCut(t: FieldType, u: nat, rest: Bytes)
    requires IsU64(u) && (t == UINT32 || t == INT32 || t == SINT32 || t == ENUM || t == BOOL)
    ensures var p := ReadScalar(t, VarUInt(u) + rest);
      var sent := if t == UINT32 || t == ENUM then u else if u % 2 == 0 then u / 2 else -(u / 2) - 1;
      && p.Parsed? && p.rest == rest && p.value.Num?
      && if t == BOOL then p.value.n == if sent == 0 then 0 else 1
         else
           && (p.value.n - sent) % 0x1_0000_0000 == 0
           && if t == UINT32 then 0 <= p.value.n < 0x1_0000_0000 else -0x8000_0000 <= p.value.n < 0x8000_0000
  {
    VarUIntRoundTrip(u, rest);
    var sent := if t == UINT32 || t == ENUM then u else if u % 2 == 0 then u / 2 else -(u / 2) - 1;
    SameLowBits(sent);
  }

  lemma SameLowBits(v: int)
    ensures var r := v % 0x1_0000_0000; (r - v) % 0x1_0000_0000 == 0 && (r - 0x1_0000_0000 - v) % 0x1_0000_0000 == 0
  {
    var q := v / 0x1_0000_0000;
    assert v % 0x1_0000_0000 - v == 0x1_0000_0000 * -q;
    assert v % 0x1_0000_0000 - 0x1_0000_0000 - v == 0x1_0000_0000 * (-q - 1);
  }

  /** A string is taken if all of it is there and its size is not above the limit. */
  lemma {:induction false} TextTaken(s: Schema, d: FieldDesc, n: nat, bytes: Bytes)
    requires (d.ftype == STRING || d.ftype == BYTES) && IsU64(n)
    ensures Take(s, d, Whole(VarUInt(n) + bytes)) ==
      if n <= |bytes| && n <= 0xFFFF_FFFF_8000_0000 then Taken(Text(bytes[..n]), Whole(bytes[n..])) else Nothing
  {
    VarUIntRoundTrip(n, bytes);
    hide ReadGroups;
  }

  /** Of an unknown record with a wire type that no field has only the tag is passed over. */
  lemma {:induction false} StrangeRecord(s: Schema, ds: seq<FieldDesc>, num: nat, wt: nat, rest: Bytes, m: Columns)
    requires num < WIDE && (wt == 3 || wt == 4 || wt == 6 || wt == 7) && IndexOf(ds, num) == |ds|
    ensures Turn(s, ds, Whole(VarUInt(num * 8 + wt) + rest), m) == Goes(Whole(rest), m)
  {
    TurnPasses(s, ds, num, wt, rest, rest, m);
  }
}
