/**
  What the emitted decoder does with its fail flag, on any input: when a read
  comes up short, when it does not notice, and where it stops.

  Wire.DecodeAll describes decoding as long as nothing is short.  Here only the
  flag and the bytes left over are followed, as the values read by then are
  partly indeterminate.
 */
module WireTruncated {
  import opened Basics
  import opened Varint
  import opened Wire

  /** The fail flag of the sink that was read from, and the bytes it has left. */
  datatype Ending = Ending(failed: bool, rest: Bytes)

  function First(b: Bytes, n: nat): (r: Bytes)
    ensures |r| <= |b|
  {
    if n < |b| then b[..n] else b
  }

  function Drop(b: Bytes, n: nat): (r: Bytes)
    ensures |r| <= |b|
  {
    if n < |b| then b[n..] else []
  }

  /**
    The value of a known field.  A string that is cut off sets no flag, and the
    flag that reading a nested message sets is that of its range, not this one.
   */
  function ValueEnding(s: Schema, d: FieldDesc, b: Bytes): (e: Ending)
    ensures |e.rest| <= |b| && (!e.failed ==> |e.rest| < |b|)
    decreases |b|, 0
  {
    RestShorter(b);
    if WireType(d.ftype) != 2 then
      match ReadScalar(d.ftype, b)
      case Short => Ending(true, [])
      case Parsed(_, rest) => Ending(false, rest)
    else
      match ReadVarUInt(b)
      case Short => Ending(true, [])
      case Parsed(n, rest) =>
        if d.ftype == MSG then
          Ending(false, MessageEnding(s, Fields(s, d.msgType), First(rest, n)).rest + Drop(rest, n))
        else if n > MAX_TEXT then Ending(true, rest)
        else Ending(false, Drop(rest, n))
  }

  /** The value of an unknown field. */
  function PassEnding(wt: nat, b: Bytes): (e: Ending)
    ensures |e.rest| <= |b|
  {
    RestShorter(b);
    if wt == 0 || wt == 2 then
      match ReadVarInt(b)
      case Short => Ending(true, [])
      case Parsed(v, rest) => Ending(false, if wt == 0 then rest else Drop(rest, v % TWO_64))
    else if wt == 1 then Ending(false, Drop(b, 8))
    else if wt == 5 then Ending(false, Drop(b, 4))
    else Ending(false, b)
  }

  function TurnEnding(s: Schema, ds: seq<FieldDesc>, b: Bytes): (e: Ending)
    ensures |e.rest| <= |b| && (!e.failed ==> |e.rest| < |b|)
    decreases |b|, 1
  {
    RestShorter(b);
    match ReadVarUInt(b)
    case Short => Ending(true, [])
    case Parsed(tag, rest) =>
      var i := IndexOf(ds, tag % 0x1_0000_0000 / 8);
      if i < |ds| then ValueEnding(s, ds[i], rest) else PassEnding(tag % 8, rest)
  }

  /** The loop over a range that has just these bytes. */
  function MessageEnding(s: Schema, ds: seq<FieldDesc>, b: Bytes): (e: Ending)
    ensures |e.rest| <= |b|
    decreases |b|, 2
  {
    if b == [] then Ending(false, [])
    else
      var e := TurnEnding(s, ds, b);
      if e.failed then e else MessageEnding(s, ds, e.rest)
  }

  // ------------------------------------------------ what is accepted is whole

  lemma {:induction false} TakenEnds(s: Schema, d: FieldDesc, w: Window)
    requires Sane(w) && Take(s, d, w).Taken?
    ensures ValueEnding(s, d, w.b) == Ending(false, Take(s, d, w).w.b)
    decreases |w.b|, 0
  {
    if d.ftype == MSG {
      hide Empty;
      RestShorter(w.b);
      var size, rest, ds := ReadVarUInt(w.b).value, ReadVarUInt(w.b).rest, Fields(s, d.msgType);
      AcceptedEnds(s, ds, Window(First(rest, size), size), Empty(ds));
    }
  }

  lemma {:induction false} TurnedEnds(s: Schema, ds: seq<FieldDesc>, w: Window, m: Columns)
    requires Sane(w) && Turn(s, ds, w, m).Goes?
    ensures TurnEnding(s, ds, w.b) == Ending(false, Turn(s, ds, w, m).w.b)
    decreases |w.b|, 1
  {
    hide Take, ValueEnding;
    RestShorter(w.b);
    var tag, rest := ReadVarUInt(w.b).value, ReadVarUInt(w.b).rest;
    var i := IndexOf(ds, tag % 0x1_0000_0000 / 8);
    if i < |ds| { TakenEnds(s, ds[i], After(w, rest)); }
  }

  /** Whatever DecodeAll accepts is read to its end with the flag clear. */
  lemma {:induction false} AcceptedEnds(s: Schema, ds: seq<FieldDesc>, w: Window, m: Columns)
    requires Sane(w) && DecodeAll(s, ds, w, m).Message?
    ensures MessageEnding(s, ds, w.b) == Ending(false, [])
    decreases |w.b|, 2
  {
    if w.avail > 0 {
      var t := Turn(s, ds, w, m);
      TurnedEnds(s, ds, w, m);
      AcceptedEnds(s, ds, t.w, t.m);
    }
  }

  // ------------------------------------------------------------ cut encodings

  /** The bytes of a value without which reading it sets the flag: all of a number, the size of the rest. */
  function NeededOf(s: Schema, d: FieldDesc, v: Value): nat {
    match v
    case Num(_) => |Payload(s, d, v)|
    case Text(bytes) => |VarUInt(|bytes|)|
    case Nested(m) => |VarUInt(|Encode(s, Fields(s, d.msgType), m)|)|
  }

  /** The bytes of a record without which reading it sets the flag. */
  function Needed(s: Schema, x: Item): nat {
    match x
    case Known(d, v) => |VarUInt(Tag(d))| + NeededOf(s, d, v)
    case Unknown(num, wt, payload) => |VarUInt(num * 8 + wt)| + if wt == 0 then |payload| else 0
  }

  /** The first k bytes of these records end inside what one of them needs. */
  predicate CutShort(s: Schema, xs: seq<Item>, k: nat) {
    xs != [] &&
    var n := |ItemBytes(s, xs[0])|;
    if k < n then 0 < k < Needed(s, xs[0]) else CutShort(s, xs[1..], k - n)
  }

  ghost predicate EndsAt(s: Schema, d: FieldDesc, v: Value, j: nat)
    requires j <= |Payload(s, d, v)|
  {
    ValueEnding(s, d, Payload(s, d, v)[..j]) == Ending(j < NeededOf(s, d, v), [])
  }

  /** Wherever the value is cut, the flag says whether something it needs is missing. */
  ghost predicate Cuts(s: Schema, d: FieldDesc, v: Value) {
    forall j: nat | j <= |Payload(s, d, v)| :: EndsAt(s, d, v, j)
  }

  ghost predicate Cuttable(s: Schema, ds: seq<FieldDesc>, x: Item) {
    Readable(s, ds, x) && (x.Known? ==> Cuts(s, x.d, x.v))
  }

  lemma {:induction false} PrefixIsShort(v: nat, j: nat)
    requires j < |VarUInt(v)|
    ensures ReadGroups(VarUInt(v)[..j]).Short?
    decreases v
  {
    if v >= 128 && j > 0 {
      PrefixIsShort(v / 128, j - 1);
      assert VarUInt(v)[..j][1..] == VarUInt(v / 128)[..j - 1];
    }
  }

  lemma {:induction false} FixedIsShort(b: Bytes, n: nat)
    requires |b| < n
    ensures ReadFixed(b, n).Short?
    decreases n
  {
    if b != [] { FixedIsShort(b[1..], n - 1); }
  }

  lemma {:induction false} ScalarIsShort(t: FieldType, n: int, j: nat)
    requires WireType(t) != 2 && InWidth(t, n) && j < |Scalar(t, n)|
    ensures ReadScalar(t, Scalar(t, n)[..j]).Short?
  {
    var b := Scalar(t, n)[..j];
    if WireType(t) == 5 {
      FixedIsShort(b, 4);
    } else if WireType(t) == 1 {
      FixedIsShort(b, 8);
    } else if t == UINT32 || t == UINT64 || t == ENUM {
      PrefixIsShort(n % TWO_64, j);
    } else {
      PrefixIsShort(ZigZag(n), j);
    }
  }

  lemma {:induction false} ScalarCuts(s: Schema, d: FieldDesc, n: int, j: nat)
    requires WireType(d.ftype) != 2 && InWidth(d.ftype, n) && j <= |Payload(s, d, Num(n))|
    ensures EndsAt(s, d, Num(n), j)
  {
    var b := Scalar(d.ftype, n);
    if j < |b| {
      ScalarIsShort(d.ftype, n, j);
    } else {
      ScalarRoundTrip(d.ftype, n, []);
      assert b + [] == b == b[..j];
    }
  }

  /** What is read of a cut value behind its size. */
  lemma {:induction false} SizeThenBody(body: Bytes, j: nat)
    requires IsU64(|body|)
    ensures var size := VarUInt(|body|); var b := size + body;
      j <= |b| ==> ReadVarUInt(b[..j]) == if j < |size| then Short else Parsed(|body|, body[..j - |size|])
  {
    var size := VarUInt(|body|);
    if j <= |size + body| { CutOfBoth(size, body, j); }
    if j < |size| {
      PrefixIsShort(|body|, j);
    } else if j <= |size + body| {
      VarUIntRoundTrip(|body|, body[..j - |size|]);
    }
  }

  lemma {:induction false} TextCuts(s: Schema, d: FieldDesc, bytes: Bytes, j: nat)
    requires (d.ftype == STRING || d.ftype == BYTES) && |bytes| <= MAX_TEXT && j <= |Payload(s, d, Text(bytes))|
    ensures EndsAt(s, d, Text(bytes), j)
  {
    SizeThenBody(bytes, j);
  }

  /** A nested message that is cut off uses up what is there. */
  lemma {:induction false} NestedCuts(s: Schema, d: FieldDesc, m: Columns, j: nat)
    requires d.ftype == MSG && j <= |Payload(s, d, Nested(m))|
    requires var b := Encode(s, Fields(s, d.msgType), m);
      IsU64(|b|) && forall k: nat | k <= |b| :: MessageEnding(s, Fields(s, d.msgType), b[..k]).rest == []
    ensures EndsAt(s, d, Nested(m), j)
  {
    hide Encode, MessageEnding;
    var b := Encode(s, Fields(s, d.msgType), m);
    var size := VarUInt(|b|);
    SizeThenBody(b, j);
    if j >= |size| {
      var k := j - |size|;
      assert First(b[..k], |b|) == b[..k] && Drop(b[..k], |b|) == [];
    }
  }

  lemma {:induction false} ValueCuts(s: Schema, d: FieldDesc, v: Value)
    requires GoodSchema(s) && Typed(s, d, v) && CarriedValue(s, d, v)
    ensures Cuts(s, d, v)
    decreases v
  {
    forall j: nat | j <= |Payload(s, d, v)| ensures EndsAt(s, d, v, j) {
      match v
      case Num(n) => ScalarCuts(s, d, n, j);
      case Text(bytes) => TextCuts(s, d, bytes, j);
      case Nested(m) =>
        var ds := Fields(s, d.msgType);
        forall k: nat | k <= |Encode(s, ds, m)| ensures MessageEnding(s, ds, Encode(s, ds, m)[..k]).rest == [] {
          CutMessage(s, ds, m, k);
        }
        NestedCuts(s, d, m, j);
    }
  }

  /** A turn on the first j bytes of a record, which are read as its tag before the rest. */
  lemma {:induction false} TagCuts(s: Schema, ds: seq<FieldDesc>, num: nat, wt: nat, body: Bytes, j: nat)
    requires num < WIDE && wt < 8
    ensures var tag := VarUInt(num * 8 + wt); var i := IndexOf(ds, num);
      j <= |tag + body| ==>
        TurnEnding(s, ds, (tag + body)[..j]) ==
          if j < |tag| then Ending(true, [])
          else if i < |ds| then ValueEnding(s, ds[i], body[..j - |tag|])
          else PassEnding(wt, body[..j - |tag|])
  {
    hide ValueEnding, PassEnding;
    var tag := VarUInt(num * 8 + wt);
    if j <= |tag + body| { CutOfBoth(tag, body, j); }
    if j < |tag| {
      PrefixIsShort(num * 8 + wt, j);
    } else if j <= |tag + body| {
      TagRoundTrip(num, wt, body[..j - |tag|]);
    }
  }

  lemma {:induction false} PassCuts(x: Item, k: nat)
    requires x.Unknown? && Skippable(x) && k <= |x.payload|
    ensures PassEnding(x.wt, x.payload[..k]) == Ending(x.wt == 0 && k < |x.payload|, [])
  {
    if x.wt == 0 {
      var u: nat :| IsU64(u) && x.payload == VarUInt(u);
      if k < |x.payload| {
        PrefixIsShort(u, k);
      } else {
        VarUIntRoundTrip(u, []);
        assert x.payload + [] == x.payload[..k];
      }
    }
  }

  lemma {:induction false} KnownCuts(s: Schema, ds: seq<FieldDesc>, d: FieldDesc, v: Value, j: nat)
    requires GoodNumbers(ds) && d in ds && d.num < WIDE && Cuts(s, d, v) && j <= |Record(s, d, v)|
    ensures TurnEnding(s, ds, Record(s, d, v)[..j]) == Ending(j < Needed(s, Known(d, v)), [])
  {
    hide TurnEnding, ValueEnding, PassEnding, Payload, NeededOf;
    var i :| 0 <= i < |ds| && ds[i] == d;
    var tag, body := VarUInt(d.num * 8 + WireType(d.ftype)), Payload(s, d, v);
    IndexOfNumber(ds, i);
    TagCuts(s, ds, d.num, WireType(d.ftype), body, j);
    assert Record(s, d, v) == tag + body;
    if j >= |tag| { assert EndsAt(s, d, v, j - |tag|); }
  }

  lemma {:induction false} UnknownCuts(s: Schema, ds: seq<FieldDesc>, x: Item, j: nat)
    requires x.Unknown? && Readable(s, ds, x) && j <= |ItemBytes(s, x)|
    ensures TurnEnding(s, ds, ItemBytes(s, x)[..j]) == Ending(j < Needed(s, x), [])
  {
    hide TurnEnding, ValueEnding, PassEnding;
    var tag := VarUInt(x.num * 8 + x.wt);
    TagCuts(s, ds, x.num, x.wt, x.payload, j);
    if j >= |tag| { PassCuts(x, j - |tag|); }
  }

  /** Records that are all there do not matter for how reading the rest ends. */
  lemma {:induction false} RecordPassed(s: Schema, ds: seq<FieldDesc>, x: Item, rest: Bytes)
    requires GoodNumbers(ds) && Cuttable(s, ds, x)
    ensures MessageEnding(s, ds, ItemBytes(s, x) + rest) == MessageEnding(s, ds, rest)
  {
    ItemNotEmpty(s, x);
    DecodeOne(s, ds, x, rest, NoMore);
    TurnedEnds(s, ds, Whole(ItemBytes(s, x) + rest), NoMore);
  }

  lemma {:induction false} RecordCut(s: Schema, ds: seq<FieldDesc>, x: Item, j: nat)
    requires GoodNumbers(ds) && Cuttable(s, ds, x) && j <= |ItemBytes(s, x)|
    ensures MessageEnding(s, ds, ItemBytes(s, x)[..j]) == Ending(0 < j < Needed(s, x), [])
  {
    if j > 0 {
      hide TurnEnding, Needed;
      if x.Known? { KnownCuts(s, ds, x.d, x.v, j); } else { UnknownCuts(s, ds, x, j); }
    }
  }

  lemma CutOfBoth(a: Bytes, b: Bytes, k: nat)
    requires k <= |a + b|
    ensures (a + b)[..k] == if k < |a| then a[..k] else a + b[..k - |a|]
  {
  }

  lemma {:induction false} NothingCut(s: Schema, ds: seq<FieldDesc>)
    ensures MessageEnding(s, ds, []) == Ending(false, [])
  {
  }

  /**
    Records cut off anywhere are used up, and the flag is set exactly when the
    cut lies in the tag, the number or the size of one of them.
   */
  lemma {:induction false} CutRecords(s: Schema, ds: seq<FieldDesc>, xs: seq<Item>, k: nat)
    requires GoodNumbers(ds) && k <= |ItemsBytes(s, xs)|
    requires forall i :: 0 <= i < |xs| ==> Cuttable(s, ds, xs[i])
    ensures MessageEnding(s, ds, ItemsBytes(s, xs)[..k]) == Ending(CutShort(s, xs, k), [])
  {
    hide ItemBytes, MessageEnding, Needed, Cuttable;
    if xs == [] {
      NothingCut(s, ds);
    } else {
      var x, rest := ItemBytes(s, xs[0]), ItemsBytes(s, xs[1..]);
      CutOfBoth(x, rest, k);
      if k < |x| {
        RecordCut(s, ds, xs[0], k);
      } else {
        var left := k - |x|;
        RecordPassed(s, ds, xs[0], rest[..left]);
        CutRecords(s, ds, xs[1..], left);
      }
    }
  }

  /** The same of the encoding of a message. */
  lemma {:induction false} CutMessage(s: Schema, ds: seq<FieldDesc>, m: Columns, k: nat)
    requires GoodSchema(s) && GoodNumbers(ds) && TypedColumns(s, ds, m) && Carried(s, ds, m)
    requires k <= |Encode(s, ds, m)|
    ensures MessageEnding(s, ds, Encode(s, ds, m)[..k]) == Ending(CutShort(s, ItemsOf(ds, m), k), [])
    decreases m, 1
  {
    var xs := ItemsOf(ds, m);
    EncodeIsItems(s, ds, m);
    MessageReadable(s, ds, m);
    MessageCuts(s, ds, m);
    forall i | 0 <= i < |xs| ensures Cuttable(s, ds, xs[i]) {
      assert xs[i].Known? && Readable(s, ds, xs[i]);
    }
    CutRecords(s, ds, xs, k);
  }

  lemma {:induction false} MessageCuts(s: Schema, ds: seq<FieldDesc>, m: Columns)
    requires GoodSchema(s) && TypedColumns(s, ds, m) && Carried(s, ds, m)
    ensures forall i :: 0 <= i < |ItemsOf(ds, m)| ==> var x := ItemsOf(ds, m)[i]; x.Known? ==> Cuts(s, x.d, x.v)
    decreases m, 0
  {
    if m.Column? {
      ColumnCuts(s, ds[0], m.values);
      MessageCuts(s, ds[1..], m.rest);
    }
  }

  lemma {:induction false} ColumnCuts(s: Schema, d: FieldDesc, vs: Values)
    requires GoodSchema(s) && TypedAll(s, d, vs) && CarriedAll(s, d, vs)
    ensures forall i :: 0 <= i < |ColumnItems(d, vs)| ==>
      var x := ColumnItems(d, vs)[i]; x.Known? && x.d == d && Cuts(s, d, x.v)
    decreases vs
  {
    if vs.Cons? {
      ValueCuts(s, d, vs.head);
      ColumnCuts(s, d, vs.tail);
    }
  }

  /** A string of which not all bytes are there is no value for Turn, and sets no flag. */
  lemma {:induction false} CutStringStored(s: Schema, ds: seq<FieldDesc>, b: Bytes, i: nat, m: Columns)
    requires ReadVarUInt(b).Parsed? && i == IndexOf(ds, ReadVarUInt(b).value % 0x1_0000_0000 / 8) < |ds|
    requires ds[i].ftype == STRING || ds[i].ftype == BYTES
    requires var n := ReadVarUInt(ReadVarUInt(b).rest); n.Parsed? && |n.rest| < n.value <= MAX_TEXT
    ensures Turn(s, ds, Whole(b), m) == Halt && TurnEnding(s, ds, b) == Ending(false, [])
  {
    hide ReadGroups, IndexOf;
  }

  /** A string of five bytes of which two are there: no message for the decoding function, no flag in the code. */
  lemma CutStringGoesUnnoticed()
    ensures var ds := [FieldDesc(1, STRING, false, "")]; var b: Bytes := [10, 5, 97, 98];
      DecodeAll(map[], ds, Whole(b), Empty(ds)) == Failed && MessageEnding(map[], ds, b) == Ending(false, [])
  {
    var ds := [FieldDesc(1, STRING, false, "")];
    var b: Bytes := [10, 5, 97, 98];
    assert ReadVarUInt(b) == Parsed(10, b[1..]) && ReadVarUInt(b[1..]) == Parsed(5, b[2..]);
    assert IndexOf(ds, 1) == 0;
    CutStringStored(map[], ds, b, 0, Empty(ds));
    hide Turn, TurnEnding, ReadGroups;
  }
}
