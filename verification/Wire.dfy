/**
  The wire format of the serializers that TOOLS/protoc/proto_printer_header.cpp
  emits, driven by the field descriptors of a message type.

  A message is a list of columns, one per field in descriptor order.  Encode
  is what the emitted operator<< writes and DecodeAll what the emitted
  operator>> makes of a byte range.
 */
module Wire {
  import opened Basics
  import opened Varint

  datatype FieldType =
    | INT64 | UINT64 | SINT64 | FIXED64 | SFIXED64 | DOUBLE | FLOAT | INT32 | UINT32 | SINT32
    | FIXED32 | SFIXED32 | STRING | BYTES | BOOL | ENUM | MSG

  datatype FieldDesc = FieldDesc(num: nat, ftype: FieldType, repeated: bool, msgType: string)

  type Schema = map<string, seq<FieldDesc>>

  /** Floats and doubles are their bit patterns. */
  datatype Value = Num(n: int) | Text(bytes: Bytes) | Nested(msg: Columns)

  datatype Values = Nil | Cons(head: Value, tail: Values)

  /** Singular fields hold one value, or none for a message that is not set. */
  datatype Columns = NoMore | Column(values: Values, rest: Columns)

  // ---------------------------------------------------------------- encoding

  function WireType(t: FieldType): nat {
    match t
    case FLOAT => 5
    case FIXED32 => 5
    case SFIXED32 => 5
    case FIXED64 => 1
    case SFIXED64 => 1
    case DOUBLE => 1
    case STRING => 2
    case BYTES => 2
    case MSG => 2
    case _ => 0
  }

  /** The tag as the encoder's u32 holds it; numbers from WIDE on lose their upper bits. */
  function Tag(d: FieldDesc): nat { (d.num * 8 + WireType(d.ftype)) % 0x1_0000_0000 }

  const WIDE := 0x2000_0000

  function DefaultValue(t: FieldType): Value {
    match t
    case STRING => Text([])
    case BYTES => Text([])
    case _ => Num(0)
  }

  /** n bytes, least significant first. */
  function Fixed(v: nat, n: nat): (b: Bytes)
    ensures |b| == n
  {
    if n == 0 then [] else [(v % 256) as u8] + Fixed(v / 256, n - 1)
  }

  function Scalar(t: FieldType, n: int): Bytes {
    match t
    case FLOAT => Fixed(n % 0x1_0000_0000, 4)
    case FIXED32 => Fixed(n % 0x1_0000_0000, 4)
    case SFIXED32 => Fixed(n % 0x1_0000_0000, 4)
    case FIXED64 => Fixed(n % TWO_64, 8)
    case SFIXED64 => Fixed(n % TWO_64, 8)
    case DOUBLE => Fixed(n % TWO_64, 8)
    case UINT32 => VarUInt(n % TWO_64)
    case UINT64 => VarUInt(n % TWO_64)
    case ENUM => VarUInt(n % TWO_64)
    case _ => VarInt(n)
  }

  function Fields(s: Schema, name: string): seq<FieldDesc> {
    if name in s then s[name] else []
  }

  /** What follows the tag of a field. */
  function Payload(s: Schema, d: FieldDesc, v: Value): Bytes
    decreases v, 0
  {
    match v
    case Num(n) => Scalar(d.ftype, n)
    case Text(bytes) => VarUInt(|bytes|) + bytes
    case Nested(m) => var body := Encode(s, Fields(s, d.msgType), m); VarUInt(|body|) + body
  }

  function Record(s: Schema, d: FieldDesc, v: Value): Bytes
    decreases v, 1
  {
    VarUInt(Tag(d)) + Payload(s, d, v)
  }

  /** Comparison with the default: a floating-point zero equals it whatever its sign. */
  predicate IsDefault(t: FieldType, v: Value) {
    || v == DefaultValue(t)
    || (t == FLOAT && v == Num(0x8000_0000))
    || (t == DOUBLE && v == Num(TWO_63))
  }

  /** Is a value written?  A singular field with its default value is not. */
  predicate Written(d: FieldDesc, v: Value) {
    d.repeated || d.ftype == MSG || !IsDefault(d.ftype, v)
  }

  function EncodeColumn(s: Schema, d: FieldDesc, vs: Values): Bytes
    decreases vs
  {
    match vs
    case Nil => []
    case Cons(v, t) => (if Written(d, v) then Record(s, d, v) else []) + EncodeColumn(s, d, t)
  }

  function Encode(s: Schema, ds: seq<FieldDesc>, m: Columns): Bytes
    decreases m
  {
    match m
    case NoMore => []
    case Column(vs, rest) => if ds == [] then [] else EncodeColumn(s, ds[0], vs) + Encode(s, ds[1..], rest)
  }

  // ---------------------------------------------------------------- decoding

  /**
    What a sink still offers: the bytes that are there, and the number of bytes
    it claims to have, which for a range over a shorter parent may be larger.
   */
  datatype Window = Window(b: Bytes, avail: nat)

  ghost predicate Sane(w: Window) { |w.b| <= w.avail }

  /** A range that has all the bytes it claims. */
  function Whole(b: Bytes): (w: Window)
    ensures Sane(w)
  {
    Window(b, |b|)
  }

  function After(w: Window, rest: Bytes): Window
    requires |rest| <= |w.b| <= w.avail
  {
    Window(rest, w.avail - (|w.b| - |rest|))
  }

  /** A seek is cut off at the end. */
  function Skip(w: Window, dist: nat): (r: Window)
    ensures |w.b| <= w.avail ==> |r.b| <= r.avail
    ensures |r.b| <= |w.b|
  {
    Window(if dist < |w.b| then w.b[dist..] else [], if dist < w.avail then w.avail - dist else 0)
  }

  lemma {:induction false} RestShorter(b: Bytes)
    ensures ReadGroups(b).Parsed? ==> |ReadGroups(b).rest| < |b|
    decreases |b|
  {
    if b != [] && b[0] >= 128 { RestShorter(b[1..]); }
  }

  function ReadFixed(b: Bytes, n: nat): Parsed<nat> {
    if n == 0 then Parsed(0, b)
    else if b == [] then Short
    else
      match ReadFixed(b[1..], n - 1)
      case Short => Short
      case Parsed(v, rest) => Parsed(b[0] as nat + 256 * v, rest)
  }

  /** Conversion to a signed integer of the given modulus. */
  function Signed(v: int, modulus: nat): int
    requires modulus > 0
  {
    if v % modulus >= (modulus + 1) / 2 then v % modulus - modulus else v % modulus
  }

  /** Reads one number and stores it with the width of its field. */
  function ReadScalar(t: FieldType, b: Bytes): (r: Parsed<Value>)
    ensures r.Parsed? ==> |r.rest| < |b|
  {
    RestShorter(b);
    FixedShorter(b, 4);
    FixedShorter(b, 8);
    if WireType(t) == 5 then
      match ReadFixed(b, 4)
      case Short => Short
      case Parsed(v, rest) => Parsed(Num(if t == SFIXED32 then Signed(v, 0x1_0000_0000) else v), rest)
    else if WireType(t) == 1 then
      match ReadFixed(b, 8)
      case Short => Short
      case Parsed(v, rest) => Parsed(Num(if t == SFIXED64 then Signed(v, TWO_64) else v), rest)
    else if t == UINT32 || t == UINT64 || t == ENUM then
      match ReadVarUInt(b)
      case Short => Short
      case Parsed(v, rest) =>
        Parsed(Num(if t == UINT64 then v
                   else if t == UINT32 then v % 0x1_0000_0000
                   else Signed(v, 0x1_0000_0000)), rest)
    else
      match ReadVarInt(b)
      case Short => Short
      case Parsed(v, rest) =>
        Parsed(Num(if t == BOOL then (if v != 0 then 1 else 0)
                   else if t == INT32 || t == SINT32 then Signed(v, 0x1_0000_0000)
                   else v), rest)
  }

  lemma {:induction false} FixedShorter(b: Bytes, n: nat)
    requires n > 0
    ensures ReadFixed(b, n).Parsed? ==> |ReadFixed(b, n).rest| < |b|
  {
    if b != [] && n > 1 { FixedShorter(b[1..], n - 1); }
  }

  function IndexOf(ds: seq<FieldDesc>, num: nat): (i: nat)
    ensures i <= |ds|
    ensures i < |ds| ==> ds[i].num == num
    ensures forall j :: 0 <= j < i ==> ds[j].num != num
  {
    if ds == [] || ds[0].num == num then 0 else 1 + IndexOf(ds[1..], num)
  }

  function DefaultColumn(d: FieldDesc): Values {
    if d.repeated || d.ftype == MSG then Nil else Cons(DefaultValue(d.ftype), Nil)
  }

  /** The state of a new builder. */
  function Empty(ds: seq<FieldDesc>): Columns {
    if ds == [] then NoMore else Column(DefaultColumn(ds[0]), Empty(ds[1..]))
  }

  function Push(vs: Values, v: Value): Values {
    match vs
    case Nil => Cons(v, Nil)
    case Cons(h, t) => Cons(h, Push(t, v))
  }

  /** add_ for a repeated field, set_ for a singular one. */
  function Store(d: FieldDesc, vs: Values, v: Value): Values {
    if d.repeated then Push(vs, v) else Cons(v, Nil)
  }

  function StoreAt(ds: seq<FieldDesc>, m: Columns, i: nat, v: Value): Columns {
    match m
    case NoMore => NoMore
    case Column(vs, rest) =>
      if ds == [] then m
      else if i == 0 then Column(Store(ds[0], vs, v), rest)
      else Column(vs, StoreAt(ds[1..], rest, i - 1, v))
  }

  datatype Decoded = Failed | Message(m: Columns)

  /** The largest string size the decoder lets through; it compares with (1 << 31) as a negative int. */
  const MAX_TEXT := 0xFFFF_FFFF_8000_0000

  datatype Taken = Nothing | Taken(v: Value, w: Window)

  /** Reads the value of a known field. */
  function Take(s: Schema, d: FieldDesc, w: Window): (r: Taken)
    requires Sane(w)
    ensures r.Taken? ==> Sane(r.w) && |r.w.b| < |w.b|
    decreases |w.b|, 0
  {
    RestShorter(w.b);
    if WireType(d.ftype) != 2 then
      match ReadScalar(d.ftype, w.b)
      case Short => Nothing
      case Parsed(v, rest) => Taken(v, After(w, rest))
    else
      match ReadVarUInt(w.b)
      case Short => Nothing
      case Parsed(n, rest) =>
        if d.ftype != MSG then
          if n > MAX_TEXT || n > |rest| then Nothing
          else Taken(Text(rest[..n]), After(w, rest[n..]))
        else
          var ds := Fields(s, d.msgType);
          match DecodeAll(s, ds, Window(if n < |rest| then rest[..n] else rest, n), Empty(ds))
          case Failed => Nothing
          case Message(m) => Taken(Nested(m), Skip(After(w, rest), n))
  }

  datatype Passing = Stuck | Passed(w: Window)

  /** Skips the value of an unknown field; a length-delimited one by a zigzag length, as the emitted code does. */
  function Pass(wt: nat, w: Window): (r: Passing)
    requires Sane(w)
    ensures r.Passed? ==> Sane(r.w) && |r.w.b| <= |w.b|
  {
    RestShorter(w.b);
    if wt == 0 || wt == 2 then
      match ReadVarInt(w.b)
      case Short => Stuck
      case Parsed(v, rest) => Passed(if wt == 0 then After(w, rest) else Skip(After(w, rest), v % TWO_64))
    else if wt == 1 then Passed(Skip(w, 8))
    else if wt == 5 then Passed(Skip(w, 4))
    else Passed(w)
  }

  datatype Turned = Halt | Goes(w: Window, m: Columns)

  /** One turn of the emitted decoder's loop: a tag, then a field to store or to skip. */
  function Turn(s: Schema, ds: seq<FieldDesc>, w: Window, m: Columns): (r: Turned)
    requires Sane(w)
    ensures r.Goes? ==> Sane(r.w) && |r.w.b| < |w.b|
    decreases |w.b|, 1
  {
    RestShorter(w.b);
    match ReadVarUInt(w.b)
    case Short => Halt
    case Parsed(tag, rest) =>
      var num, wt := tag % 0x1_0000_0000 / 8, tag % 8;
      var i := IndexOf(ds, num);
      if i < |ds| then
        match Take(s, ds[i], After(w, rest))
        case Nothing => Halt
        case Taken(v, w') => Goes(w', StoreAt(ds, m, i, v))
      else
        match Pass(wt, After(w, rest))
        case Stuck => Halt
        case Passed(w') => Goes(w', m)
  }

  /** The loop of the emitted decoder. */
  function DecodeAll(s: Schema, ds: seq<FieldDesc>, w: Window, m: Columns): Decoded
    requires Sane(w)
    decreases |w.b|, 2
  {
    if w.avail == 0 then Message(m)
    else
      match Turn(s, ds, w, m)
      case Halt => Failed
      case Goes(w', m') => DecodeAll(s, ds, w', m')
  }

  // ---------------------------------------------------- values that can be sent

  ghost predicate InWidth(t: FieldType, n: int) {
    match t
    case INT32 => -0x8000_0000 <= n < 0x8000_0000
    case SINT32 => -0x8000_0000 <= n < 0x8000_0000
    case SFIXED32 => -0x8000_0000 <= n < 0x8000_0000
    case UINT32 => 0 <= n < 0x1_0000_0000
    case FIXED32 => 0 <= n < 0x1_0000_0000
    case FLOAT => 0 <= n < 0x1_0000_0000
    case BOOL => 0 <= n <= 1
    case ENUM => 0 <= n < 0x8000_0000
    case INT64 => IsS64(n)
    case SINT64 => IsS64(n)
    case SFIXED64 => IsS64(n)
    case _ => IsU64(n)
  }

  ghost predicate Typed(s: Schema, d: FieldDesc, v: Value)
    decreases v
  {
    match v
    case Num(n) => WireType(d.ftype) != 2 && InWidth(d.ftype, n)
    case Text(bytes) => (d.ftype == STRING || d.ftype == BYTES) && |bytes| <= MAX_TEXT
    case Nested(m) =>
      d.ftype == MSG && TypedColumns(s, Fields(s, d.msgType), m) && IsU64(|Encode(s, Fields(s, d.msgType), m)|)
  }

  ghost predicate TypedAll(s: Schema, d: FieldDesc, vs: Values)
    decreases vs
  {
    match vs
    case Nil => true
    case Cons(v, t) => Typed(s, d, v) && TypedAll(s, d, t)
  }

  ghost predicate TypedColumns(s: Schema, ds: seq<FieldDesc>, m: Columns)
    decreases m
  {
    match m
    case NoMore => ds == []
    case Column(vs, rest) =>
      && ds != [] && TypedAll(s, ds[0], vs) && TypedColumns(s, ds[1..], rest)
      && (!ds[0].repeated ==> (vs.Cons? && vs.tail.Nil?) || (vs.Nil? && ds[0].ftype == MSG))
  }

  /** Field numbers as verifyMessage leaves them. */
  ghost predicate GoodNumbers(ds: seq<FieldDesc>) {
    && (forall i :: 0 <= i < |ds| ==> 0 < ds[i].num < 0x8000_0000)
    && (forall i, j :: 0 <= i < j < |ds| ==> ds[i].num != ds[j].num)
  }

  ghost predicate GoodSchema(s: Schema) {
    forall name :: name in s ==> GoodNumbers(s[name])
  }

  /** A message with singular negative zeros made positive, at every depth. */
  function Canonical(s: Schema, d: FieldDesc, v: Value): Value
    decreases v
  {
    if v.Nested? then Nested(CanonicalColumns(s, Fields(s, d.msgType), v.msg)) else v
  }

  function CanonicalColumn(s: Schema, d: FieldDesc, vs: Values): Values
    decreases vs
  {
    match vs
    case Nil => Nil
    case Cons(v, t) =>
      Cons(if Written(d, v) then Canonical(s, d, v) else DefaultValue(d.ftype), CanonicalColumn(s, d, t))
  }

  function CanonicalColumns(s: Schema, ds: seq<FieldDesc>, m: Columns): Columns
    decreases m
  {
    match m
    case NoMore => NoMore
    case Column(vs, rest) =>
      if ds == [] then m else Column(CanonicalColumn(s, ds[0], vs), CanonicalColumns(s, ds[1..], rest))
  }

  /** What is written goes into fields whose numbers a tag can hold, at every depth. */
  ghost predicate CarriedValue(s: Schema, d: FieldDesc, v: Value)
    decreases v
  {
    v.Nested? ==> Carried(s, Fields(s, d.msgType), v.msg)
  }

  ghost predicate CarriedAll(s: Schema, d: FieldDesc, vs: Values)
    decreases vs
  {
    vs.Cons? ==> (Written(d, vs.head) ==> d.num < WIDE && CarriedValue(s, d, vs.head)) && CarriedAll(s, d, vs.tail)
  }

  ghost predicate Carried(s: Schema, ds: seq<FieldDesc>, m: Columns)
    decreases m
  {
    m.Column? && ds != [] ==> CarriedAll(s, ds[0], m.values) && Carried(s, ds[1..], m.rest)
  }

  // --------------------------------------------------------- scalar round trip

  function Pow256(n: nat): (p: nat)
    ensures p > 0
  {
    if n == 0 then 1 else 256 * Pow256(n - 1)
  }

  lemma {:induction false} FixedRoundTrip(v: nat, n: nat, suffix: Bytes)
    requires v < Pow256(n)
    ensures ReadFixed(Fixed(v, n) + suffix, n) == Parsed(v, suffix)
    decreases n
  {
    var b := Fixed(v, n) + suffix;
    if n == 0 {
      assert b == suffix;
    } else {
      FixedRoundTrip(v / 256, n - 1, suffix);
      assert b[1..] == Fixed(v / 256, n - 1) + suffix;
    }
  }

  lemma Pow256Values()
    ensures Pow256(4) == 0x1_0000_0000 && Pow256(8) == TWO_64
  {
    assert Pow256(2) == 0x1_0000;
    assert Pow256(4) == 0x1_0000_0000;
    assert Pow256(6) == 0x1_0000_0000_0000;
  }

  lemma Modulo(n: int, m: int)
    requires m > 0 && -m <= n < m
    ensures n % m == if n < 0 then n + m else n
  {
    if n < 0 { ModuloShift(n, m); }
  }

  lemma ModuloShift(n: int, m: int)
    requires m > 0 && -m <= n < 0
    ensures n % m == n + m
  {
    assert n == m * -1 + (n + m);
  }

  lemma {:induction false} Fixed32RoundTrip(t: FieldType, n: int, suffix: Bytes)
    requires WireType(t) == 5 && InWidth(t, n)
    ensures ReadScalar(t, Scalar(t, n) + suffix) == Parsed(Num(n), suffix)
  {
    Pow256Values();
    Modulo(n, 0x1_0000_0000);
    FixedRoundTrip(n % 0x1_0000_0000, 4, suffix);
  }

  lemma {:induction false} Fixed64RoundTrip(t: FieldType, n: int, suffix: Bytes)
    requires WireType(t) == 1 && InWidth(t, n)
    ensures ReadScalar(t, Scalar(t, n) + suffix) == Parsed(Num(n), suffix)
  {
    Pow256Values();
    Modulo(n, TWO_64);
    FixedRoundTrip(n % TWO_64, 8, suffix);
  }

  lemma {:induction false} UnsignedRoundTrip(t: FieldType, n: int, suffix: Bytes)
    requires (t == UINT32 || t == UINT64 || t == ENUM) && InWidth(t, n)
    ensures ReadScalar(t, Scalar(t, n) + suffix) == Parsed(Num(n), suffix)
  {
    Modulo(n, TWO_64);
    VarUIntRoundTrip(n, suffix);
    if t != UINT64 { Modulo(n, 0x1_0000_0000); }
  }

  lemma {:induction false} SignedRoundTrip(t: FieldType, n: int, suffix: Bytes)
    requires WireType(t) == 0 && t != UINT32 && t != UINT64 && t != ENUM && InWidth(t, n)
    ensures ReadScalar(t, Scalar(t, n) + suffix) == Parsed(Num(n), suffix)
  {
    VarIntRoundTrip(n, suffix);
    if t == INT32 || t == SINT32 { Modulo(n, 0x1_0000_0000); }
  }

  lemma {:induction false} ScalarRoundTrip(t: FieldType, n: int, suffix: Bytes)
    requires WireType(t) != 2 && InWidth(t, n)
    ensures ReadScalar(t, Scalar(t, n) + suffix) == Parsed(Num(n), suffix)
  {
    if WireType(t) == 5 { Fixed32RoundTrip(t, n, suffix); }
    else if WireType(t) == 1 { Fixed64RoundTrip(t, n, suffix); }
    else if t == UINT32 || t == UINT64 || t == ENUM { UnsignedRoundTrip(t, n, suffix); }
    else { SignedRoundTrip(t, n, suffix); }
  }

  // ----------------------------------------------------------------- records

  /** A record on the wire: a value of a known field, or one of a field the reader does not know. */
  datatype Item = Known(d: FieldDesc, v: Value) | Unknown(num: nat, wt: nat, payload: Bytes)

  function ItemBytes(s: Schema, x: Item): Bytes {
    match x
    case Known(d, v) => Record(s, d, v)
    case Unknown(num, wt, payload) => VarUInt(num * 8 + wt) + payload
  }

  function ItemsBytes(s: Schema, xs: seq<Item>): Bytes {
    if xs == [] then [] else ItemBytes(s, xs[0]) + ItemsBytes(s, xs[1..])
  }

  /** Decoding a nested message on its own. */
  function NestedBack(s: Schema, d: FieldDesc, m: Columns): Decoded {
    var ds := Fields(s, d.msgType);
    DecodeAll(s, ds, Whole(Encode(s, ds, m)), Empty(ds))
  }

  /** Does a value decode at all, and to what? */
  ghost predicate Survives(s: Schema, d: FieldDesc, v: Value) {
    v.Nested? ==> NestedBack(s, d, v.msg).Message?
  }

  function Received(s: Schema, d: FieldDesc, v: Value): Value {
    if v.Nested? && NestedBack(s, d, v.msg).Message? then Nested(NestedBack(s, d, v.msg).m) else v
  }

  function ReceivedColumn(s: Schema, d: FieldDesc, vs: Values): Values
    decreases vs
  {
    match vs
    case Nil => Nil
    case Cons(v, t) =>
      Cons(if Written(d, v) then Received(s, d, v) else DefaultValue(d.ftype), ReceivedColumn(s, d, t))
  }

  function ReceivedColumns(s: Schema, ds: seq<FieldDesc>, m: Columns): Columns
    decreases m
  {
    match m
    case NoMore => NoMore
    case Column(vs, rest) =>
      if ds == [] then m else Column(ReceivedColumn(s, ds[0], vs), ReceivedColumns(s, ds[1..], rest))
  }

  /** The value of a known field is read back and nothing after it is touched. */
  ghost predicate TakesBack(s: Schema, d: FieldDesc, v: Value) {
    forall rest: Bytes :: TakenFrom(s, d, v, Payload(s, d, v), rest)
  }

  ghost predicate TakenFrom(s: Schema, d: FieldDesc, v: Value, payload: Bytes, rest: Bytes) {
    Take(s, d, Whole(payload + rest)) == Taken(Received(s, d, v), Whole(rest))
  }

  /** An unknown record of wire type 0, 1 or 5. */
  ghost predicate Skippable(x: Item)
    requires x.Unknown?
  {
    && x.num < WIDE
    && match x.wt
       case 0 => exists u: nat :: IsU64(u) && x.payload == VarUInt(u)
       case 1 => |x.payload| == 8
       case 5 => |x.payload| == 4
       case _ => false
  }

  ghost predicate Readable(s: Schema, ds: seq<FieldDesc>, x: Item) {
    match x
    case Known(d, v) => d in ds && d.num < WIDE && TakesBack(s, d, v)
    case Unknown(num, _, _) => Skippable(x) && IndexOf(ds, num) == |ds|
  }

  /** What reading a record does to the message. */
  function Applied(s: Schema, ds: seq<FieldDesc>, x: Item, m: Columns): Columns {
    match x
    case Known(d, v) => StoreAt(ds, m, IndexOf(ds, d.num), Received(s, d, v))
    case Unknown(_, _, _) => m
  }

  function AppliedAll(s: Schema, ds: seq<FieldDesc>, xs: seq<Item>, m: Columns): Columns {
    if xs == [] then m else AppliedAll(s, ds, xs[1..], Applied(s, ds, xs[0], m))
  }

  lemma {:induction false} TagRoundTrip(num: nat, wt: nat, body: Bytes)
    requires num < WIDE && wt < 8
    ensures ReadVarUInt(VarUInt(num * 8 + wt) + body) == Parsed(num * 8 + wt, body)
    ensures (num * 8 + wt) % 0x1_0000_0000 / 8 == num && (num * 8 + wt) % 8 == wt
  {
    VarUIntRoundTrip(num * 8 + wt, body);
  }

  lemma NarrowTag(d: FieldDesc)
    requires d.num < WIDE
    ensures Tag(d) == d.num * 8 + WireType(d.ftype)
  {
  }

  lemma {:induction false} SkipAll(b: Bytes, rest: Bytes)
    ensures Skip(Whole(b + rest), |b|) == Whole(rest)
  {
    assert (b + rest)[|b|..] == rest;
  }

  lemma {:induction false} PassSkips(x: Item, rest: Bytes)
    requires x.Unknown? && Skippable(x)
    ensures Pass(x.wt, Whole(x.payload + rest)) == Passed(Whole(rest))
  {
    if x.wt == 0 {
      var u: nat :| IsU64(u) && x.payload == VarUInt(u);
      VarUIntRoundTrip(u, rest);
    } else {
      SkipAll(x.payload, rest);
    }
  }

  /** A turn on a range that begins with the tag of a known field. */
  lemma {:induction false} TurnStores(s: Schema, ds: seq<FieldDesc>, num: nat, wt: nat, body: Bytes, rest: Bytes,
      m: Columns, v: Value)
    requires num < WIDE && wt < 8 && IndexOf(ds, num) < |ds|
    requires Take(s, ds[IndexOf(ds, num)], Whole(body)) == Taken(v, Whole(rest))
    ensures Turn(s, ds, Whole(VarUInt(num * 8 + wt) + body), m) ==
      Goes(Whole(rest), StoreAt(ds, m, IndexOf(ds, num), v))
  {
    TagRoundTrip(num, wt, body);
  }

  lemma {:induction false} TurnHalts(s: Schema, ds: seq<FieldDesc>, num: nat, wt: nat, body: Bytes, m: Columns)
    requires num < WIDE && wt < 8 && IndexOf(ds, num) < |ds| && Take(s, ds[IndexOf(ds, num)], Whole(body)) == Nothing
    ensures Turn(s, ds, Whole(VarUInt(num * 8 + wt) + body), m) == Halt
  {
    TagRoundTrip(num, wt, body);
  }

  lemma {:induction false} TurnPasses(s: Schema, ds: seq<FieldDesc>, num: nat, wt: nat, body: Bytes, rest: Bytes,
      m: Columns)
    requires num < WIDE && wt < 8 && IndexOf(ds, num) == |ds|
    requires Pass(wt, Whole(body)) == Passed(Whole(rest))
    ensures Turn(s, ds, Whole(VarUInt(num * 8 + wt) + body), m) == Goes(Whole(rest), m)
  {
    TagRoundTrip(num, wt, body);
  }

  lemma {:induction false} IndexOfNumber(ds: seq<FieldDesc>, k: nat)
    requires GoodNumbers(ds) && k < |ds|
    ensures IndexOf(ds, ds[k].num) == k
  {
  }

  lemma {:induction false} DecodeKnown(s: Schema, ds: seq<FieldDesc>, d: FieldDesc, v: Value, rest: Bytes, m: Columns)
    requires GoodNumbers(ds) && d in ds && d.num < WIDE && TakesBack(s, d, v)
    ensures Turn(s, ds, Whole(Record(s, d, v) + rest), m) ==
      Goes(Whole(rest), StoreAt(ds, m, IndexOf(ds, d.num), Received(s, d, v)))
  {
    NarrowTag(d);
    hide Tag, Take, Received, Payload;
    var k :| 0 <= k < |ds| && ds[k] == d;
    var body := Payload(s, d, v);
    IndexOfNumber(ds, k);
    hide IndexOf, Turn;
    assert TakenFrom(s, d, v, body, rest);
    Assoc(VarUInt(Tag(d)), body, rest);
    TurnStores(s, ds, d.num, WireType(d.ftype), body + rest, rest, m, Received(s, d, v));
  }

  lemma {:induction false} DecodeUnknown(s: Schema, ds: seq<FieldDesc>, num: nat, wt: nat, payload: Bytes,
      rest: Bytes, m: Columns)
    requires num < WIDE && wt < 8 && IndexOf(ds, num) == |ds|
    requires Pass(wt, Whole(payload + rest)) == Passed(Whole(rest))
    ensures Turn(s, ds, Whole(VarUInt(num * 8 + wt) + payload + rest), m) == Goes(Whole(rest), m)
  {
    Assoc(VarUInt(num * 8 + wt), payload, rest);
    TurnPasses(s, ds, num, wt, payload + rest, rest, m);
  }

  /** One turn of the decoder's loop reads one record. */
  lemma {:induction false} DecodeOne(s: Schema, ds: seq<FieldDesc>, x: Item, rest: Bytes, m: Columns)
    requires GoodNumbers(ds) && Readable(s, ds, x)
    ensures Turn(s, ds, Whole(ItemBytes(s, x) + rest), m) == Goes(Whole(rest), Applied(s, ds, x, m))
  {
    match x
    case Known(d, v) => DecodeKnown(s, ds, d, v, rest, m);
    case Unknown(num, wt, payload) =>
      PassSkips(x, rest);
      DecodeUnknown(s, ds, num, wt, payload, rest, m);
  }

  lemma {:induction false} ItemNotEmpty(s: Schema, x: Item)
    ensures ItemBytes(s, x) != []
  {
    match x
    case Known(d, _) => VarUIntLength(Tag(d), 0);
    case Unknown(num, wt, _) => VarUIntLength(num * 8 + wt, 0);
  }

  lemma {:induction false} DecodeItems(s: Schema, ds: seq<FieldDesc>, xs: seq<Item>, m: Columns)
    requires GoodNumbers(ds) && forall i :: 0 <= i < |xs| ==> Readable(s, ds, xs[i])
    ensures DecodeAll(s, ds, Whole(ItemsBytes(s, xs)), m) == Message(AppliedAll(s, ds, xs, m))
  {
    if xs != [] {
      var x, rest := xs[0], ItemsBytes(s, xs[1..]);
      var m' := Applied(s, ds, x, m);
      ItemNotEmpty(s, x);
      DecodeOne(s, ds, x, rest, m);
      DecodeTurn(s, ds, Whole(ItemBytes(s, x) + rest), m, Whole(rest), m');
      DecodeItems(s, ds, xs[1..], m');
    }
  }

  lemma {:induction false} DecodeTurn(s: Schema, ds: seq<FieldDesc>, w: Window, m: Columns, w': Window, m': Columns)
    requires Sane(w) && w.avail > 0 && Turn(s, ds, w, m) == Goes(w', m')
    ensures DecodeAll(s, ds, w, m) == DecodeAll(s, ds, w', m')
  {
  }

  // --------------------------------------------- columns and the items of a message

  function ColumnItems(d: FieldDesc, vs: Values): seq<Item> {
    match vs
    case Nil => []
    case Cons(v, t) => (if Written(d, v) then [Known(d, v)] else []) + ColumnItems(d, t)
  }

  /** The records the encoder writes for a message. */
  function ItemsOf(ds: seq<FieldDesc>, m: Columns): seq<Item> {
    match m
    case NoMore => []
    case Column(vs, rest) => if ds == [] then [] else ColumnItems(ds[0], vs) + ItemsOf(ds[1..], rest)
  }

  lemma {:induction false} ItemsBytesConcat(s: Schema, xs: seq<Item>, ys: seq<Item>)
    ensures ItemsBytes(s, xs + ys) == ItemsBytes(s, xs) + ItemsBytes(s, ys)
  {
    if xs == [] {
      assert xs + ys == ys;
    } else {
      assert (xs + ys)[1..] == xs[1..] + ys;
      ItemsBytesConcat(s, xs[1..], ys);
      Assoc(ItemBytes(s, xs[0]), ItemsBytes(s, xs[1..]), ItemsBytes(s, ys));
    }
  }

  lemma {:induction false} ColumnIsItems(s: Schema, d: FieldDesc, vs: Values)
    ensures EncodeColumn(s, d, vs) == ItemsBytes(s, ColumnItems(d, vs))
  {
    if vs.Cons? {
      ColumnIsItems(s, d, vs.tail);
      if Written(d, vs.head) {
        assert ColumnItems(d, vs)[1..] == ColumnItems(d, vs.tail);
      } else {
        assert ColumnItems(d, vs) == ColumnItems(d, vs.tail);
      }
    }
  }

  /** The encoder writes the records of the message one after another. */
  lemma {:induction false} EncodeIsItems(s: Schema, ds: seq<FieldDesc>, m: Columns)
    ensures Encode(s, ds, m) == ItemsBytes(s, ItemsOf(ds, m))
  {
    if m.Column? && ds != [] {
      ColumnIsItems(s, ds[0], m.values);
      EncodeIsItems(s, ds[1..], m.rest);
      ItemsBytesConcat(s, ColumnItems(ds[0], m.values), ItemsOf(ds[1..], m.rest));
    }
  }

  // ------------------------------------------------- every value is read back

  lemma {:induction false} ValueTakesBack(s: Schema, d: FieldDesc, v: Value)
    requires Typed(s, d, v) && Survives(s, d, v)
    ensures TakesBack(s, d, v)
  {
    forall rest: Bytes ensures TakenFrom(s, d, v, Payload(s, d, v), rest) {
      match v
      case Num(n) => ScalarRoundTrip(d.ftype, n, rest);
      case Text(bytes) => TextTakesBack(s, d, bytes, rest);
      case Nested(m) => NestedTakesBack(s, d, m, rest);
    }
  }

  lemma {:induction false} TextTakesBack(s: Schema, d: FieldDesc, bytes: Bytes, rest: Bytes)
    requires (d.ftype == STRING || d.ftype == BYTES) && |bytes| <= MAX_TEXT
    ensures TakenFrom(s, d, Text(bytes), Payload(s, d, Text(bytes)), rest)
  {
    var size := VarUInt(|bytes|);
    Assoc(size, bytes, rest);
    VarUIntRoundTrip(|bytes|, bytes + rest);
    assert (bytes + rest)[..|bytes|] == bytes && (bytes + rest)[|bytes|..] == rest;
  }

  /** The range over the nested message ends exactly where the size measured for it says. */
  lemma {:induction false} NestedTakesBack(s: Schema, d: FieldDesc, m: Columns, rest: Bytes)
    requires d.ftype == MSG && IsU64(|Encode(s, Fields(s, d.msgType), m)|)
    ensures Take(s, d, Whole(Payload(s, d, Nested(m)) + rest)) ==
      if Survives(s, d, Nested(m)) then Taken(Received(s, d, Nested(m)), Whole(rest)) else Nothing
  {
    hide Encode, Empty, DecodeAll, ReadGroups;
    var b := Encode(s, Fields(s, d.msgType), m);
    Assoc(VarUInt(|b|), b, rest);
    VarUIntRoundTrip(|b|, b + rest);
    FrontOf(b, rest);
    SkipAll(b, rest);
  }

  lemma FrontOf(b: Bytes, rest: Bytes)
    ensures (if |b| < |b + rest| then (b + rest)[..|b|] else b + rest) == b
  {
  }

  lemma {:induction false} ColumnTyped(s: Schema, d: FieldDesc, vs: Values)
    requires TypedAll(s, d, vs)
    ensures forall i :: 0 <= i < |ColumnItems(d, vs)| ==>
      var x := ColumnItems(d, vs)[i]; x.Known? && x.d == d && Typed(s, d, x.v)
    decreases vs
  {
    if vs.Cons? { ColumnTyped(s, d, vs.tail); }
  }

  lemma {:induction false} MessageTyped(s: Schema, ds: seq<FieldDesc>, m: Columns)
    requires TypedColumns(s, ds, m)
    ensures forall i :: 0 <= i < |ItemsOf(ds, m)| ==>
      var x := ItemsOf(ds, m)[i]; x.Known? && x.d in ds && Typed(s, x.d, x.v)
    decreases m
  {
    if m.Column? {
      ColumnTyped(s, ds[0], m.values);
      MessageTyped(s, ds[1..], m.rest);
      assert forall d :: d in ds[1..] ==> d in ds;
    }
  }

  // ------------------------------------- a column depends on its own records only

  function Width(m: Columns): nat {
    match m
    case NoMore => 0
    case Column(_, rest) => 1 + Width(rest)
  }

  function ColumnAt(m: Columns, i: nat): Values
    requires i < Width(m)
  {
    if i == 0 then m.values else ColumnAt(m.rest, i - 1)
  }

  lemma {:induction false} SameColumns(m: Columns, n: Columns)
    requires Width(m) == Width(n) && forall i :: 0 <= i < Width(m) ==> ColumnAt(m, i) == ColumnAt(n, i)
    ensures m == n
  {
    if m.Column? {
      assert ColumnAt(m, 0) == ColumnAt(n, 0);
      forall i | 0 <= i < Width(m.rest) ensures ColumnAt(m.rest, i) == ColumnAt(n.rest, i) {
        assert ColumnAt(m, i + 1) == ColumnAt(n, i + 1);
      }
      SameColumns(m.rest, n.rest);
    }
  }

  /** The values the records of one field number carry, in order. */
  function ValuesFor(s: Schema, xs: seq<Item>, num: nat): seq<Value> {
    if xs == [] then []
    else
      (if xs[0].Known? && xs[0].d.num == num then [Received(s, xs[0].d, xs[0].v)] else [])
      + ValuesFor(s, xs[1..], num)
  }

  function StoreAll(d: FieldDesc, vs: Values, xs: seq<Value>): Values
    decreases |xs|
  {
    if xs == [] then vs else StoreAll(d, Store(d, vs, xs[0]), xs[1..])
  }

  lemma {:induction false} StoreAtColumns(ds: seq<FieldDesc>, m: Columns, k: nat, v: Value, i: nat)
    requires Width(m) == |ds| && i < |ds| && k < |ds|
    ensures Width(StoreAt(ds, m, k, v)) == |ds|
    ensures ColumnAt(StoreAt(ds, m, k, v), i) == if i == k then Store(ds[i], ColumnAt(m, i), v) else ColumnAt(m, i)
  {
    if k > 0 {
      if i > 0 {
        StoreAtColumns(ds[1..], m.rest, k - 1, v, i - 1);
      } else {
        StoreAtColumns(ds[1..], m.rest, k - 1, v, k - 1);
      }
    }
  }

  ghost predicate Fitting(ds: seq<FieldDesc>, xs: seq<Item>) {
    forall i :: 0 <= i < |xs| && xs[i].Known? ==> xs[i].d in ds
  }

  lemma {:induction false} ColumnOfApplied(s: Schema, ds: seq<FieldDesc>, xs: seq<Item>, m: Columns, i: nat)
    requires GoodNumbers(ds) && Fitting(ds, xs) && Width(m) == |ds| && i < |ds|
    ensures Width(AppliedAll(s, ds, xs, m)) == |ds|
    ensures ColumnAt(AppliedAll(s, ds, xs, m), i) == StoreAll(ds[i], ColumnAt(m, i), ValuesFor(s, xs, ds[i].num))
    decreases |xs|
  {
    if xs != [] {
      var x := xs[0];
      var m' := Applied(s, ds, x, m);
      assert forall k :: 0 <= k < |xs[1..]| ==> xs[1..][k] == xs[k + 1];
      if x.Known? {
        var k := IndexOf(ds, x.d.num);
        var j :| 0 <= j < |ds| && ds[j] == x.d;
        StoreAtColumns(ds, m, k, Received(s, x.d, x.v), i);
        ColumnOfApplied(s, ds, xs[1..], m', i);
        var vs := ValuesFor(s, xs, ds[i].num);
        if x.d.num == ds[i].num {
          assert i == j == k;
          assert vs[1..] == ValuesFor(s, xs[1..], ds[i].num);
        } else {
          assert vs == ValuesFor(s, xs[1..], ds[i].num);
        }
      } else {
        ColumnOfApplied(s, ds, xs[1..], m', i);
        assert ValuesFor(s, xs, ds[i].num) == ValuesFor(s, xs[1..], ds[i].num);
      }
    }
  }

  /** Two record sequences with the same values for every field leave the same message. */
  lemma {:induction false} AppliedSame(s: Schema, ds: seq<FieldDesc>, xs: seq<Item>, ys: seq<Item>, m: Columns)
    requires GoodNumbers(ds) && Fitting(ds, xs) && Fitting(ds, ys) && Width(m) == |ds|
    requires forall i :: 0 <= i < |ds| ==> ValuesFor(s, xs, ds[i].num) == ValuesFor(s, ys, ds[i].num)
    ensures AppliedAll(s, ds, xs, m) == AppliedAll(s, ds, ys, m)
  {
    forall i | 0 <= i < |ds|
      ensures Width(AppliedAll(s, ds, xs, m)) == Width(AppliedAll(s, ds, ys, m)) == |ds|
      ensures ColumnAt(AppliedAll(s, ds, xs, m), i) == ColumnAt(AppliedAll(s, ds, ys, m), i)
    {
      ColumnOfApplied(s, ds, xs, m, i);
      ColumnOfApplied(s, ds, ys, m, i);
    }
    if ds == [] {
      NothingStored(s, xs, m);
      NothingStored(s, ys, m);
    } else {
      assert Width(AppliedAll(s, ds, xs, m)) == |ds| by { ColumnOfApplied(s, ds, xs, m, 0); }
      assert Width(AppliedAll(s, ds, ys, m)) == |ds| by { ColumnOfApplied(s, ds, ys, m, 0); }
      SameColumns(AppliedAll(s, ds, xs, m), AppliedAll(s, ds, ys, m));
    }
  }

  lemma {:induction false} NothingStored(s: Schema, xs: seq<Item>, m: Columns)
    requires m == NoMore
    ensures AppliedAll(s, [], xs, m) == m
    decreases |xs|
  {
    if xs != [] { NothingStored(s, xs[1..], m); }
  }

  /** The values the encoder writes of a column. */
  function WrittenValues(s: Schema, d: FieldDesc, vs: Values): seq<Value> {
    match vs
    case Nil => []
    case Cons(v, t) => (if Written(d, v) then [Received(s, d, v)] else []) + WrittenValues(s, d, t)
  }

  lemma {:induction false} ValuesForConcat(s: Schema, xs: seq<Item>, ys: seq<Item>, num: nat)
    ensures ValuesFor(s, xs + ys, num) == ValuesFor(s, xs, num) + ValuesFor(s, ys, num)
  {
    hide Received;
    if xs == [] {
      assert xs + ys == ys;
    } else {
      var x := xs[0];
      var head := if x.Known? && x.d.num == num then [Received(s, x.d, x.v)] else [];
      assert (xs + ys)[0] == x && (xs + ys)[1..] == xs[1..] + ys;
      ValuesForConcat(s, xs[1..], ys, num);
      Assoc(head, ValuesFor(s, xs[1..], num), ValuesFor(s, ys, num));
    }
  }

  lemma {:induction false} ColumnValues(s: Schema, d: FieldDesc, vs: Values, num: nat)
    ensures ValuesFor(s, ColumnItems(d, vs), num) == if num == d.num then WrittenValues(s, d, vs) else []
  {
    if vs.Cons? {
      ColumnValues(s, d, vs.tail, num);
      if Written(d, vs.head) {
        assert ColumnItems(d, vs)[1..] == ColumnItems(d, vs.tail);
      } else {
        assert ColumnItems(d, vs) == ColumnItems(d, vs.tail);
      }
    }
  }

  /** The records of a message carry no value of a number that no field has. */
  lemma {:induction false} NoValues(s: Schema, ds: seq<FieldDesc>, m: Columns, num: nat)
    requires Width(m) == |ds| && forall i :: 0 <= i < |ds| ==> ds[i].num != num
    ensures ValuesFor(s, ItemsOf(ds, m), num) == []
  {
    if m.Column? {
      ValuesForConcat(s, ColumnItems(ds[0], m.values), ItemsOf(ds[1..], m.rest), num);
      ColumnValues(s, ds[0], m.values, num);
      NoValues(s, ds[1..], m.rest, num);
    }
  }

  /** Of a field's number they carry the values written of its column. */
  lemma {:induction false} MessageValues(s: Schema, ds: seq<FieldDesc>, m: Columns, i: nat)
    requires GoodNumbers(ds) && Width(m) == |ds| && i < |ds|
    ensures ValuesFor(s, ItemsOf(ds, m), ds[i].num) == WrittenValues(s, ds[i], ColumnAt(m, i))
  {
    hide ValuesFor, ColumnItems, WrittenValues;
    var num := ds[i].num;
    assert i > 0 ==> ds[0].num != num;
    ValuesForConcat(s, ColumnItems(ds[0], m.values), ItemsOf(ds[1..], m.rest), num);
    ColumnValues(s, ds[0], m.values, num);
    if i == 0 {
      assert forall j :: 0 <= j < |ds[1..]| ==> ds[1..][j] == ds[j + 1];
      NoValues(s, ds[1..], m.rest, num);
      assert WrittenValues(s, ds[0], m.values) + [] == WrittenValues(s, ds[0], m.values);
    } else {
      assert ds[1..][i - 1] == ds[i];
      MessageValues(s, ds[1..], m.rest, i - 1);
    }
  }

  function Append(vs: Values, us: Values): Values {
    match vs
    case Nil => us
    case Cons(h, t) => Cons(h, Append(t, us))
  }

  lemma {:induction false} AppendPush(vs: Values, v: Value, us: Values)
    ensures Append(Push(vs, v), us) == Append(vs, Cons(v, us))
  {
    if vs.Cons? { AppendPush(vs.tail, v, us); }
  }

  lemma {:induction false} RepeatedRebuilt(s: Schema, d: FieldDesc, acc: Values, vs: Values)
    requires d.repeated
    ensures StoreAll(d, acc, WrittenValues(s, d, vs)) == Append(acc, ReceivedColumn(s, d, vs))
    decreases vs
  {
    match vs
    case Nil => AppendNil(acc);
    case Cons(v, t) =>
      var c := Received(s, d, v);
      assert WrittenValues(s, d, vs)[1..] == WrittenValues(s, d, t);
      RepeatedRebuilt(s, d, Push(acc, c), t);
      AppendPush(acc, c, ReceivedColumn(s, d, t));
  }

  lemma {:induction false} AppendNil(vs: Values)
    ensures Append(vs, Nil) == vs
  {
    if vs.Cons? { AppendNil(vs.tail); }
  }

  /** Storing what was written of a column into a default column gives its canonical form. */
  lemma {:induction false} ColumnRebuilt(s: Schema, d: FieldDesc, vs: Values)
    requires !d.repeated ==> (vs.Cons? && vs.tail.Nil?) || (vs.Nil? && d.ftype == MSG)
    ensures StoreAll(d, DefaultColumn(d), WrittenValues(s, d, vs)) == ReceivedColumn(s, d, vs)
  {
    if d.repeated {
      RepeatedRebuilt(s, d, Nil, vs);
    } else if vs.Cons? && Written(d, vs.head) {
      assert WrittenValues(s, d, vs) == [Received(s, d, vs.head)];
    }
  }

  lemma {:induction false} WidthOfTyped(s: Schema, ds: seq<FieldDesc>, m: Columns, i: nat)
    requires TypedColumns(s, ds, m)
    ensures Width(m) == |ds| == Width(ReceivedColumns(s, ds, m)) == Width(CanonicalColumns(s, ds, m))
    ensures i < |ds| ==> ColumnAt(ReceivedColumns(s, ds, m), i) == ReceivedColumn(s, ds[i], ColumnAt(m, i))
    ensures i < |ds| ==> ColumnAt(CanonicalColumns(s, ds, m), i) == CanonicalColumn(s, ds[i], ColumnAt(m, i))
    ensures i < |ds| && !ds[i].repeated ==>
      var vs := ColumnAt(m, i); (vs.Cons? && vs.tail.Nil?) || (vs.Nil? && ds[i].ftype == MSG)
  {
    if m.Column? { WidthOfTyped(s, ds[1..], m.rest, if i > 0 then i - 1 else 0); }
  }

  lemma {:induction false} EmptyColumns(ds: seq<FieldDesc>, i: nat)
    ensures Width(Empty(ds)) == |ds| && (i < |ds| ==> ColumnAt(Empty(ds), i) == DefaultColumn(ds[i]))
  {
    if ds != [] { EmptyColumns(ds[1..], if i > 0 then i - 1 else 0); }
  }

  /** Applying the records of a message to an empty builder gives its canonical form. */
  lemma {:induction false} ItemsRebuild(s: Schema, ds: seq<FieldDesc>, m: Columns)
    requires GoodNumbers(ds) && TypedColumns(s, ds, m) && Fitting(ds, ItemsOf(ds, m))
    ensures AppliedAll(s, ds, ItemsOf(ds, m), Empty(ds)) == ReceivedColumns(s, ds, m)
  {
    var xs := ItemsOf(ds, m);
    var r, c := AppliedAll(s, ds, xs, Empty(ds)), ReceivedColumns(s, ds, m);
    WidthOfTyped(s, ds, m, 0);
    if ds == [] {
      NothingStored(s, xs, NoMore);
    } else {
      EmptyColumns(ds, 0);
      ColumnOfApplied(s, ds, xs, Empty(ds), 0);
      forall i | 0 <= i < |ds| ensures ColumnAt(r, i) == ColumnAt(c, i) {
        WidthOfTyped(s, ds, m, i);
        EmptyColumns(ds, i);
        ColumnOfApplied(s, ds, xs, Empty(ds), i);
        MessageValues(s, ds, m, i);
        ColumnRebuilt(s, ds[i], ColumnAt(m, i));
      }
      SameColumns(r, c);
    }
  }

  // ---------------------------------------------------------- the round trip

  /** In the records of a message every number fits a tag; every nested message among them decodes. */
  ghost predicate AllNarrow(xs: seq<Item>) { forall x :: x in xs && x.Known? ==> x.d.num < WIDE }

  ghost predicate AllSurvive(s: Schema, xs: seq<Item>) {
    forall x :: x in xs && x.Known? ==> Survives(s, x.d, x.v)
  }

  /** Records that fit and decode are read; one that does not decode ends everything. */
  lemma {:induction false} DecodeTyped(s: Schema, ds: seq<FieldDesc>, xs: seq<Item>, m: Columns)
    requires GoodNumbers(ds) && AllNarrow(xs)
    requires forall x :: x in xs ==> x.Known? && x.d in ds && Typed(s, x.d, x.v)
    ensures DecodeAll(s, ds, Whole(ItemsBytes(s, xs)), m) ==
      if AllSurvive(s, xs) then Message(AppliedAll(s, ds, xs, m)) else Failed
    decreases |xs|
  {
    if xs != [] {
      hide Typed, Take, Turn, GoodNumbers, ItemBytes;
      var x, rest := xs[0], ItemsBytes(s, xs[1..]);
      var w := Whole(ItemBytes(s, x) + rest);
      assert forall y :: y in xs <==> y == x || y in xs[1..];
      ItemNotEmpty(s, x);
      if Survives(s, x.d, x.v) {
        ValueTakesBack(s, x.d, x.v);
        DecodeOne(s, ds, x, rest, m);
        DecodeTurn(s, ds, w, m, Whole(rest), Applied(s, ds, x, m));
        DecodeTyped(s, ds, xs[1..], Applied(s, ds, x, m));
      } else {
        DecodeHalts(s, ds, x.d, x.v.msg, rest, m);
      }
    }
  }

  lemma {:induction false} DecodeHalts(s: Schema, ds: seq<FieldDesc>, d: FieldDesc, n: Columns, rest: Bytes, m: Columns)
    requires GoodNumbers(ds) && d in ds && d.num < WIDE && Typed(s, d, Nested(n)) && !Survives(s, d, Nested(n))
    ensures Turn(s, ds, Whole(Record(s, d, Nested(n)) + rest), m) == Halt
  {
    NarrowTag(d);
    hide Take, Turn, Survives, Tag;
    var k :| 0 <= k < |ds| && ds[k] == d;
    var body := Payload(s, d, Nested(n));
    IndexOfNumber(ds, k);
    NestedTakesBack(s, d, n, rest);
    Assoc(VarUInt(Tag(d)), body, rest);
    TurnHalts(s, ds, d.num, WireType(d.ftype), body + rest, m);
  }

  /** No tag has a number from WIDE on, so nothing is ever stored in such a field. */
  lemma {:induction false} WideUntouched(s: Schema, ds: seq<FieldDesc>, w: Window, m: Columns, i: nat)
    requires Sane(w) && Width(m) == |ds| && i < |ds| && ds[i].num >= WIDE
    ensures var r := DecodeAll(s, ds, w, m); r.Message? ==> Width(r.m) == |ds| && ColumnAt(r.m, i) == ColumnAt(m, i)
    decreases |w.b|
  {
    if w.avail > 0 && Turn(s, ds, w, m).Goes? {
      var t := Turn(s, ds, w, m);
      TurnSpares(s, ds, w, m, i);
      WideUntouched(s, ds, t.w, t.m, i);
    }
  }

  lemma {:induction false} TurnSpares(s: Schema, ds: seq<FieldDesc>, w: Window, m: Columns, i: nat)
    requires Sane(w) && Width(m) == |ds| && i < |ds| && ds[i].num >= WIDE
    ensures var t := Turn(s, ds, w, m); t.Goes? ==> Width(t.m) == |ds| && ColumnAt(t.m, i) == ColumnAt(m, i)
  {
    hide Take, Pass;
    if ReadVarUInt(w.b).Parsed? && Turn(s, ds, w, m).Goes? {
      RestShorter(w.b);
      var p := ReadVarUInt(w.b);
      var k := IndexOf(ds, p.value % 0x1_0000_0000 / 8);
      if k < |ds| { StoreAtColumns(ds, m, k, Take(s, ds[k], After(w, p.rest)).v, i); }
    }
  }

  /** A column of a number from WIDE on with something to write is not what the reader starts with. */
  lemma {:induction false} WideColumn(s: Schema, ds: seq<FieldDesc>, m: Columns) returns (i: nat)
    requires TypedColumns(s, ds, m) && !AllNarrow(ItemsOf(ds, m))
    ensures i < |ds| && ds[i].num >= WIDE && Width(m) == |ds|
    ensures CanonicalColumn(s, ds[i], ColumnAt(m, i)) != DefaultColumn(ds[i]) && ColumnAt(m, i) != DefaultColumn(ds[i])
    decreases m
  {
    WidthOfTyped(s, ds, m, 0);
    var xs := ColumnItems(ds[0], m.values);
    if AllNarrow(xs) {
      i := WideColumn(s, ds[1..], m.rest);
      i := i + 1;
    } else {
      ColumnTyped(s, ds[0], m.values);
      i := 0;
      assert xs != [];
      WrittenShows(s, ds[0], m.values);
    }
  }

  lemma {:induction false} WrittenShows(s: Schema, d: FieldDesc, vs: Values)
    requires TypedAll(s, d, vs) && ColumnItems(d, vs) != []
    requires !d.repeated ==> vs.Cons? && vs.tail.Nil?
    ensures CanonicalColumn(s, d, vs) != DefaultColumn(d) && vs != DefaultColumn(d)
  {
    if !d.repeated { assert ColumnItems(d, vs.tail) == []; }
  }

  /** A column is carried exactly if its numbers fit and its values decode to what they should. */
  lemma {:induction false} CarriedColumn(s: Schema, d: FieldDesc, vs: Values)
    requires GoodSchema(s) && TypedAll(s, d, vs)
    ensures var xs := ColumnItems(d, vs);
      CarriedAll(s, d, vs) <==>
        AllNarrow(xs) && AllSurvive(s, xs) && ReceivedColumn(s, d, vs) == CanonicalColumn(s, d, vs)
    decreases vs
  {
    if vs.Cons? {
      var v, xs, ys := vs.head, ColumnItems(d, vs), ColumnItems(d, vs.tail);
      CarriedColumn(s, d, vs.tail);
      if Written(d, v) {
        assert xs == [Known(d, v)] + ys;
        assert forall y :: y in xs <==> y == Known(d, v) || y in ys;
        if v.Nested? { RoundTripIff(s, Fields(s, d.msgType), v.msg); }
      } else {
        assert xs == ys;
      }
    }
  }

  lemma {:induction false} CarriedColumns(s: Schema, ds: seq<FieldDesc>, m: Columns)
    requires GoodSchema(s) && TypedColumns(s, ds, m)
    ensures var xs := ItemsOf(ds, m);
      Carried(s, ds, m) <==>
        AllNarrow(xs) && AllSurvive(s, xs) && ReceivedColumns(s, ds, m) == CanonicalColumns(s, ds, m)
    decreases m, 0
  {
    if m.Column? {
      var xs, ys := ColumnItems(ds[0], m.values), ItemsOf(ds[1..], m.rest);
      CarriedColumn(s, ds[0], m.values);
      CarriedColumns(s, ds[1..], m.rest);
      assert forall y :: y in ItemsOf(ds, m) <==> y in xs || y in ys;
    }
  }

  /**
    The emitted decoder run on the bytes of the emitted encoder gives the canonical
    form of the message exactly if everything written is in fields below WIDE.
   */
  lemma {:induction false} RoundTripIff(s: Schema, ds: seq<FieldDesc>, m: Columns)
    requires GoodSchema(s) && GoodNumbers(ds) && TypedColumns(s, ds, m)
    ensures DecodeAll(s, ds, Whole(Encode(s, ds, m)), Empty(ds)) == Message(CanonicalColumns(s, ds, m))
      <==> Carried(s, ds, m)
    decreases m, 1
  {
    var xs := ItemsOf(ds, m);
    CarriedColumns(s, ds, m);
    EncodeIsItems(s, ds, m);
    MessageTyped(s, ds, m);
    if AllNarrow(xs) {
      DecodeTyped(s, ds, xs, Empty(ds));
      ItemsRebuild(s, ds, m);
    } else {
      var i := WideColumn(s, ds, m);
      EmptyColumns(ds, i);
      WideUntouched(s, ds, Whole(Encode(s, ds, m)), Empty(ds), i);
      WidthOfTyped(s, ds, m, i);
    }
  }

  /**
    Wire round trip: the emitted decoder run on the bytes of the emitted encoder
    succeeds with the canonical form of the message.
   */
  lemma {:induction false} MessageRoundTrip(s: Schema, ds: seq<FieldDesc>, m: Columns)
    requires GoodSchema(s) && GoodNumbers(ds) && TypedColumns(s, ds, m) && Carried(s, ds, m)
    ensures DecodeAll(s, ds, Whole(Encode(s, ds, m)), Empty(ds)) == Message(CanonicalColumns(s, ds, m))
  {
    RoundTripIff(s, ds, m);
  }

  /** Two singular fields of which one has its default: the record of the other is the encoding. */
  lemma {:induction false} OneWritten(d: FieldDesc, e: FieldDesc, v: Value, first: bool)
    requires !d.repeated && !e.repeated && d.ftype == e.ftype != MSG && !IsDefault(d.ftype, v)
    ensures var zero, it := Cons(DefaultValue(d.ftype), Nil), Cons(v, Nil);
      var m := if first then Column(it, Column(zero, NoMore)) else Column(zero, Column(it, NoMore));
      Encode(map[], [d, e], m) == Record(map[], if first then d else e, v)
  {
    hide Record;
    var zero, it := Cons(DefaultValue(d.ftype), Nil), Cons(v, Nil);
    var x := if first then d else e;
    var one, two := if first then it else zero, if first then zero else it;
    assert [d, e][1..] == [e] && [e][1..] == [];
    assert EncodeColumn(map[], x, it) == Record(map[], x, v) + [] == Record(map[], x, v);
    assert EncodeColumn(map[], if first then e else d, zero) == [];
    assert Encode(map[], [e], Column(two, NoMore)) == EncodeColumn(map[], e, two) + [];
  }

  /** A number whose field is 2^29 above another of its type comes back in that other one. */
  lemma {:induction false} WideGoesAstray(d: FieldDesc, e: FieldDesc, n: int)
    requires d.ftype == e.ftype && WireType(d.ftype) != 2 && !d.repeated && !e.repeated
    requires 0 < d.num < WIDE && e.num == d.num + WIDE
    requires InWidth(d.ftype, n) && InWidth(d.ftype, 0) && !IsDefault(d.ftype, Num(n))
    ensures var zero, it := Cons(DefaultValue(d.ftype), Nil), Cons(Num(n), Nil);
      DecodeAll(map[], [d, e], Whole(Encode(map[], [d, e], Column(zero, Column(it, NoMore)))), Empty([d, e]))
        == Message(Column(it, Column(zero, NoMore)))
  {
    OneWritten(d, e, Num(n), true);
    OneWritten(d, e, Num(n), false);
    SameRecord(d, e, n);
    FirstCarried(map[], d, e, n);
    hide Encode, DecodeAll, Tag, Record, TypedColumns, Carried, CanonicalColumns, Empty;
    MessageRoundTrip(map[], [d, e], Column(Cons(Num(n), Nil), Column(Cons(DefaultValue(d.ftype), Nil), NoMore)));
  }

  lemma SameRecord(d: FieldDesc, e: FieldDesc, n: int)
    requires d.ftype == e.ftype && e.num == d.num + WIDE
    ensures Record(map[], d, Num(n)) == Record(map[], e, Num(n))
  {
    WrapsOnce(d.num * 8 + WireType(d.ftype));
    assert Tag(d) == Tag(e);
    hide Tag;
  }

  lemma WrapsOnce(a: nat)
    ensures (a + 0x1_0000_0000) % 0x1_0000_0000 == a % 0x1_0000_0000
  {
  }

  lemma {:induction false} OneValue(s: Schema, d: FieldDesc, n: int)
    ensures var vs, v := Cons(Num(n), Nil), Num(n);
      && TypedAll(s, d, vs) == Typed(s, d, v)
      && CarriedAll(s, d, vs) == (Written(d, v) ==> d.num < WIDE)
      && CanonicalColumn(s, d, vs) == Cons(if Written(d, v) then v else DefaultValue(d.ftype), Nil)
  {
    var vs, v := Cons(Num(n), Nil), Num(n);
    var none: Values := vs.tail;
    assert TypedAll(s, d, none) && CarriedAll(s, d, none) && CanonicalColumn(s, d, none) == Nil;
    assert CarriedValue(s, d, v) && Canonical(s, d, v) == v;
  }

  lemma {:induction false} FirstCarried(s: Schema, d: FieldDesc, e: FieldDesc, n: int)
    requires d.ftype == e.ftype && WireType(d.ftype) != 2 && !d.repeated && !e.repeated && d.num < WIDE
    requires InWidth(d.ftype, n) && InWidth(d.ftype, 0) && !IsDefault(d.ftype, Num(n))
    ensures var m := Column(Cons(Num(n), Nil), Column(Cons(DefaultValue(d.ftype), Nil), NoMore));
      TypedColumns(s, [d, e], m) && Carried(s, [d, e], m) && CanonicalColumns(s, [d, e], m) == m
  {
    assert [d, e][1..] == [e] && [e][1..] == [];
    var zero, it := Cons(DefaultValue(d.ftype), Nil), Cons(Num(n), Nil);
    OneValue(s, d, n);
    OneValue(s, e, 0);
    var last := Column(zero, NoMore);
    assert CanonicalColumns(s, [e], last) == last && TypedColumns(s, [e], last) && Carried(s, [e], last);
  }

  /** The records of a message that is carried can be read. */
  lemma {:induction false} MessageReadable(s: Schema, ds: seq<FieldDesc>, m: Columns)
    requires GoodSchema(s) && TypedColumns(s, ds, m) && Carried(s, ds, m)
    ensures forall i :: 0 <= i < |ItemsOf(ds, m)| ==> ItemsOf(ds, m)[i].Known? && Readable(s, ds, ItemsOf(ds, m)[i])
  {
    var xs := ItemsOf(ds, m);
    CarriedColumns(s, ds, m);
    MessageTyped(s, ds, m);
    forall i | 0 <= i < |xs| ensures xs[i].Known? && Readable(s, ds, xs[i]) {
      assert xs[i] in xs;
      ValueTakesBack(s, xs[i].d, xs[i].v);
    }
  }

  // ---------------------------------------------------------- order of records

  /**
    Records may be reordered as long as those of the same field keep their order,
    and records of unknown fields of wire types 0, 1 and 5 may come anywhere.
   */
  lemma {:induction false} OrderOfRecords(s: Schema, ds: seq<FieldDesc>, xs: seq<Item>, ys: seq<Item>)
    requires GoodNumbers(ds)
    requires forall i :: 0 <= i < |xs| ==> Readable(s, ds, xs[i])
    requires forall i :: 0 <= i < |ys| ==> Readable(s, ds, ys[i])
    requires forall i :: 0 <= i < |ds| ==> ValuesFor(s, xs, ds[i].num) == ValuesFor(s, ys, ds[i].num)
    ensures DecodeAll(s, ds, Whole(ItemsBytes(s, xs)), Empty(ds))
         == DecodeAll(s, ds, Whole(ItemsBytes(s, ys)), Empty(ds))
  {
    DecodeItems(s, ds, xs, Empty(ds));
    DecodeItems(s, ds, ys, Empty(ds));
    EmptyColumns(ds, 0);
    AppliedSame(s, ds, xs, ys, Empty(ds));
  }

  /** Any arrangement of a message's records, with unknown ones among them, decodes to the message. */
  lemma {:induction false} AnyOrderRoundTrip(s: Schema, ds: seq<FieldDesc>, m: Columns, ys: seq<Item>)
    requires GoodSchema(s) && GoodNumbers(ds) && TypedColumns(s, ds, m) && Carried(s, ds, m)
    requires forall i :: 0 <= i < |ys| ==> Readable(s, ds, ys[i])
    requires forall i :: 0 <= i < |ds| ==> ValuesFor(s, ys, ds[i].num) == ValuesFor(s, ItemsOf(ds, m), ds[i].num)
    ensures DecodeAll(s, ds, Whole(ItemsBytes(s, ys)), Empty(ds)) == Message(CanonicalColumns(s, ds, m))
  {
    MessageReadable(s, ds, m);
    EncodeIsItems(s, ds, m);
    MessageRoundTrip(s, ds, m);
    OrderOfRecords(s, ds, ys, ItemsOf(ds, m));
  }

  /**
    The length of an unknown length-delimited value is read as a signed varint,
    so skipping it ends up after it only if it is empty, or if its length is odd
    and nothing follows it.
   */
  lemma {:induction false} LengthDelimitedSkip(content: Bytes, rest: Bytes)
    requires |content| + |rest| < TWO_63
    ensures var b := VarUInt(|content|) + (content + rest);
      Pass(2, Whole(b)) == Passed(Whole(rest)) <==> content == [] || (|content| % 2 == 1 && rest == [])
  {
    var n := |content|;
    var b := VarUInt(n) + (content + rest);
    VarUIntRoundTrip(n, content + rest);
    var w := After(Whole(b), content + rest);
    assert w == Whole(content + rest);
    var v := UnZigZag(n);
    assert v % TWO_64 == if n % 2 == 0 then n / 2 else TWO_64 - n / 2 - 1 by { Modulo(v, TWO_64); }
    if content == [] { assert content + rest == rest; }
    var r := Skip(w, v % TWO_64);
    if content != [] && r == Whole(rest) { assert |r.b| == |rest|; }
  }

  /** Of two bytes of an unknown field the second is left and read as a tag. */
  lemma {:induction false} TwoBytesMissed()
    ensures VarUInt(2) == [2] && Pass(2, Whole([2, 8, 9])) == Passed(Whole([9]))
  {
    var b: Bytes := [2, 8, 9];
    assert ReadGroups(b) == Parsed(2, b[1..]);
    assert b[1..] == [8, 9] && UnZigZag(2) == 1;
    assert Skip(Whole([8, 9]), 1) == Whole([8, 9][1..]) && [8, 9][1..] == [9];
  }

  // ------------------------------------------------------------ negative zeros

  /** The bit pattern of a negative zero, in a singular field. */
  predicate IsNegativeZero(d: FieldDesc, v: Value) {
    && !d.repeated
    && ((d.ftype == FLOAT && v == Num(0x8000_0000)) || (d.ftype == DOUBLE && v == Num(0x8000_0000_0000_0000)))
  }

  /** No singular float or double is a negative zero, at any depth. */
  ghost predicate Positive(s: Schema, d: FieldDesc, v: Value)
    decreases v
  {
    !IsNegativeZero(d, v) && (v.Nested? ==> PositiveColumns(s, Fields(s, d.msgType), v.msg))
  }

  ghost predicate PositiveColumn(s: Schema, d: FieldDesc, vs: Values)
    decreases vs
  {
    vs.Cons? ==> Positive(s, d, vs.head) && PositiveColumn(s, d, vs.tail)
  }

  ghost predicate PositiveColumns(s: Schema, ds: seq<FieldDesc>, m: Columns)
    decreases m
  {
    m.Column? && ds != [] ==> PositiveColumn(s, ds[0], m.values) && PositiveColumns(s, ds[1..], m.rest)
  }

  /** The canonical form is the message itself exactly when it holds no singular negative zero. */
  lemma {:induction false} CanonicalIff(s: Schema, ds: seq<FieldDesc>, m: Columns)
    ensures CanonicalColumns(s, ds, m) == m <==> PositiveColumns(s, ds, m)
    decreases m
  {
    if m.Column? && ds != [] {
      CanonicalColumnIff(s, ds[0], m.values);
      CanonicalIff(s, ds[1..], m.rest);
    }
  }

  lemma {:induction false} CanonicalColumnIff(s: Schema, d: FieldDesc, vs: Values)
    ensures CanonicalColumn(s, d, vs) == vs <==> PositiveColumn(s, d, vs)
    decreases vs
  {
    if vs.Cons? {
      CanonicalColumnIff(s, d, vs.tail);
      if vs.head.Nested? { CanonicalIff(s, Fields(s, d.msgType), vs.head.msg); }
    }
  }

  /** A message with a single float field set to negative zero comes back with positive zero. */
  lemma NegativeZeroIsLost()
    ensures var ds := [FieldDesc(1, FLOAT, false, "")]; var m := Column(Cons(Num(0x8000_0000), Nil), NoMore);
      TypedColumns(map[], ds, m) && CanonicalColumns(map[], ds, m) == Column(Cons(Num(0), Nil), NoMore)
  {
  }

  // ---------------------------------------------- which messages come back as sent

  /** What a field holds that nothing was set in or added to. */
  function Unset(d: FieldDesc): Values {
    if d.repeated || d.ftype == MSG then Nil
    else if d.ftype == STRING || d.ftype == BYTES then Cons(Text([]), Nil)
    else Cons(Num(0), Nil)
  }

  /** No negative zero in a singular field, and nothing in a field that a tag cannot hold, at any depth. */
  ghost predicate ComesBackValue(s: Schema, d: FieldDesc, v: Value)
    decreases v
  {
    !IsNegativeZero(d, v) && (v.Nested? ==> ComesBack(s, Fields(s, d.msgType), v.msg))
  }

  ghost predicate ComesBackAll(s: Schema, d: FieldDesc, vs: Values)
    decreases vs
  {
    vs.Cons? ==> ComesBackValue(s, d, vs.head) && ComesBackAll(s, d, vs.tail)
  }

  ghost predicate ComesBack(s: Schema, ds: seq<FieldDesc>, m: Columns)
    decreases m
  {
    m.Column? && ds != [] ==>
      && (ds[0].num >= WIDE ==> m.values == Unset(ds[0]))
      && ComesBackAll(s, ds[0], m.values) && ComesBack(s, ds[1..], m.rest)
  }

  lemma {:induction false} ColumnComesBack(s: Schema, d: FieldDesc, vs: Values)
    requires GoodSchema(s) && TypedAll(s, d, vs)
    ensures ComesBackAll(s, d, vs) <==> AllSurvive(s, ColumnItems(d, vs)) && ReceivedColumn(s, d, vs) == vs
    decreases vs
  {
    if vs.Cons? {
      var v, xs, ys := vs.head, ColumnItems(d, vs), ColumnItems(d, vs.tail);
      ColumnComesBack(s, d, vs.tail);
      if Written(d, v) {
        assert xs == [Known(d, v)] + ys;
        assert forall y :: y in xs <==> y == Known(d, v) || y in ys;
        if v.Nested? { ComesBackIff(s, Fields(s, d.msgType), v.msg); }
      } else {
        assert xs == ys;
      }
    }
  }

  lemma {:induction false} WideHoldsNothing(s: Schema, d: FieldDesc, vs: Values)
    requires TypedAll(s, d, vs) && ReceivedColumn(s, d, vs) == vs
    requires !d.repeated ==> (vs.Cons? && vs.tail.Nil?) || (vs.Nil? && d.ftype == MSG)
    ensures ColumnItems(d, vs) == [] <==> vs == Unset(d)
  {
    if d.repeated && vs.Cons? { assert ColumnItems(d, vs)[0] == Known(d, vs.head); }
    if vs.Cons? { assert ColumnItems(d, Nil) == []; }
  }

  lemma {:induction false} ColumnsComeBack(s: Schema, ds: seq<FieldDesc>, m: Columns)
    requires GoodSchema(s) && TypedColumns(s, ds, m)
    ensures var xs := ItemsOf(ds, m);
      ComesBack(s, ds, m) <==> AllNarrow(xs) && AllSurvive(s, xs) && ReceivedColumns(s, ds, m) == m
    decreases m, 0
  {
    if m.Column? {
      var xs, ys := ColumnItems(ds[0], m.values), ItemsOf(ds[1..], m.rest);
      ColumnComesBack(s, ds[0], m.values);
      if ReceivedColumn(s, ds[0], m.values) == m.values { WideHoldsNothing(s, ds[0], m.values); }
      ColumnTyped(s, ds[0], m.values);
      assert AllNarrow(xs) <==> ds[0].num < WIDE || xs == [] by {
        if xs != [] { assert xs[0] in xs && xs[0].Known? && xs[0].d == ds[0]; }
      }
      ColumnsComeBack(s, ds[1..], m.rest);
      assert forall y :: y in ItemsOf(ds, m) <==> y in xs || y in ys;
    }
  }

  /**
    What the emitted decoder makes of the bytes of the emitted encoder is the very
    message that was sent, exactly if it holds no singular negative zero and
    nothing in fields from WIDE on, at any depth.
   */
  lemma {:induction false} ComesBackIff(s: Schema, ds: seq<FieldDesc>, m: Columns)
    requires GoodSchema(s) && GoodNumbers(ds) && TypedColumns(s, ds, m)
    ensures DecodeAll(s, ds, Whole(Encode(s, ds, m)), Empty(ds)) == Message(m) <==> ComesBack(s, ds, m)
    decreases m, 1
  {
    var xs := ItemsOf(ds, m);
    ColumnsComeBack(s, ds, m);
    EncodeIsItems(s, ds, m);
    MessageTyped(s, ds, m);
    if AllNarrow(xs) {
      DecodeTyped(s, ds, xs, Empty(ds));
      ItemsRebuild(s, ds, m);
    } else {
      var i := WideColumn(s, ds, m);
      EmptyColumns(ds, i);
      WideUntouched(s, ds, Whole(Encode(s, ds, m)), Empty(ds), i);
    }
  }

  /** A message that is carried comes back as sent exactly if it holds no singular negative zero. */
  lemma {:induction false} SameMessageIff(s: Schema, ds: seq<FieldDesc>, m: Columns)
    requires GoodSchema(s) && GoodNumbers(ds) && TypedColumns(s, ds, m) && Carried(s, ds, m)
    ensures DecodeAll(s, ds, Whole(Encode(s, ds, m)), Empty(ds)) == Message(m) <==> PositiveColumns(s, ds, m)
  {
    RoundTripIff(s, ds, m);
    CanonicalIff(s, ds, m);
  }
}
