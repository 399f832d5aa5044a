/**
  Message descriptors and their binary form: the serializers of
  CORE/TYPES/protobuf.h over those of CORE/BASE/serializer_strings.h.

  Reading is given as a function from bytes to a value and the bytes left, and
  the round trip is proved on it; ProtoDefSinks has the step by step form.
 */
module ProtoDef {
  import opened Basics
  import opened Varint
  import opened Wire

  datatype FieldDef = FieldDef(name: Bytes, msgType: Bytes, ftype: nat, num: int, repeated: bool)

  datatype EnumDef = EnumDef(name: Bytes, values: seq<FieldDef>)

  datatype MessageDef = MessageDef(
    name: Bytes, package: Bytes, messages: seq<MessageDef>, fields: seq<FieldDef>, enums: seq<EnumDef>)

  const U32_MAX := 0xFFFF_FFFF

  // ----------------------------------------------------------------- writing

  function TextBytes(s: Bytes): Bytes { VarUInt(|s|) + s }

  function SizeBytes(n: nat): Bytes { Fixed(n % TWO_64, 8) }

  function FieldBytes(f: FieldDef): Bytes {
    TextBytes(f.name) + (TextBytes(f.msgType) + FieldTail(f))
  }

  function FieldTail(f: FieldDef): Bytes {
    Fixed(f.ftype % 0x1_0000_0000, 4) + (Fixed(f.num % 0x1_0000_0000, 4) + [if f.repeated then 1 else 0])
  }

  function FieldsBytes(fs: seq<FieldDef>): Bytes {
    if fs == [] then [] else FieldBytes(fs[0]) + FieldsBytes(fs[1..])
  }

  function EnumBytes(e: EnumDef): Bytes {
    TextBytes(e.name) + (SizeBytes(|e.values|) + FieldsBytes(e.values))
  }

  function EnumsBytes(es: seq<EnumDef>): Bytes {
    if es == [] then [] else EnumBytes(es[0]) + EnumsBytes(es[1..])
  }

  /** Name, package, enums, fields and, last, the nested messages. */
  function MessageBytes(m: MessageDef): Bytes
    decreases m, 0
  {
    TextBytes(m.name) + (TextBytes(m.package)
      + ((SizeBytes(|m.enums|) + EnumsBytes(m.enums))
      + ((SizeBytes(|m.fields|) + FieldsBytes(m.fields))
      + (SizeBytes(|m.messages|) + MessagesBytes(m.messages)))))
  }

  function MessagesBytes(ms: seq<MessageDef>): Bytes
    decreases ms
  {
    if ms == [] then [] else MessageBytes(ms[0]) + MessagesBytes(ms[1..])
  }

  // ----------------------------------------------------------------- reading

  /** A string too long for 32 bits is not read at all; the string stays empty. */
  function ReadText(b: Bytes): (r: Parsed<Bytes>)
    ensures r.Parsed? ==> |r.rest| < |b|
  {
    RestShorter(b);
    match ReadVarUInt(b)
    case Short => Short
    case Parsed(n, rest) =>
      if n >= U32_MAX then Parsed([], rest)
      else if n > |rest| then Short
      else Parsed(rest[..n], rest[n..])
  }

  function Before<T>(x: T, p: Parsed<seq<T>>): (r: Parsed<seq<T>>)
    ensures r.Parsed? <==> p.Parsed?
    ensures r.Parsed? ==> r.rest == p.rest
  {
    match p
    case Short => Short
    case Parsed(xs, rest) => Parsed([x] + xs, rest)
  }

  function ReadSize(b: Bytes): (r: Parsed<nat>)
    ensures r.Parsed? ==> |r.rest| < |b|
  {
    FixedShorter(b, 8);
    ReadFixed(b, 8)
  }

  function ReadFieldTail(name: Bytes, msgType: Bytes, b: Bytes): (r: Parsed<FieldDef>)
    ensures r.Parsed? ==> |r.rest| < |b|
  {
    FixedShorter(b, 4);
    match ReadFixed(b, 4)
    case Short => Short
    case Parsed(ftype, b1) =>
      FixedShorter(b1, 4);
      match ReadFixed(b1, 4)
      case Short => Short
      case Parsed(num, b2) =>
        if b2 == [] then Short
        else Parsed(FieldDef(name, msgType, ftype, Signed(num, 0x1_0000_0000), b2[0] != 0), b2[1..])
  }

  function ReadField(b: Bytes): (r: Parsed<FieldDef>)
    ensures r.Parsed? ==> |r.rest| < |b|
  {
    match ReadText(b)
    case Short => Short
    case Parsed(name, b1) =>
      match ReadText(b1)
      case Short => Short
      case Parsed(msgType, b2) => ReadFieldTail(name, msgType, b2)
  }

  function ReadFields(b: Bytes, n: nat): (r: Parsed<seq<FieldDef>>)
    ensures r.Parsed? ==> |r.rest| <= |b|
    decreases n
  {
    if n == 0 then Parsed([], b)
    else
      match ReadField(b)
      case Short => Short
      case Parsed(f, b1) => Before(f, ReadFields(b1, n - 1))
  }

  function ReadFieldList(b: Bytes): (r: Parsed<seq<FieldDef>>)
    ensures r.Parsed? ==> |r.rest| < |b|
  {
    match ReadSize(b)
    case Short => Short
    case Parsed(n, b1) => ReadFields(b1, n)
  }

  function ReadEnum(b: Bytes): (r: Parsed<EnumDef>)
    ensures r.Parsed? ==> |r.rest| < |b|
  {
    match ReadText(b)
    case Short => Short
    case Parsed(name, b1) =>
      match ReadFieldList(b1)
      case Short => Short
      case Parsed(values, b2) => Parsed(EnumDef(name, values), b2)
  }

  function ReadEnums(b: Bytes, n: nat): (r: Parsed<seq<EnumDef>>)
    ensures r.Parsed? ==> |r.rest| <= |b|
    decreases n
  {
    if n == 0 then Parsed([], b)
    else
      match ReadEnum(b)
      case Short => Short
      case Parsed(e, b1) => Before(e, ReadEnums(b1, n - 1))
  }

  function ReadEnumList(b: Bytes): (r: Parsed<seq<EnumDef>>)
    ensures r.Parsed? ==> |r.rest| < |b|
  {
    match ReadSize(b)
    case Short => Short
    case Parsed(n, b1) => ReadEnums(b1, n)
  }

  /** Everything before the nested messages. */
  function ReadHead(b: Bytes): (r: Parsed<MessageDef>)
    ensures r.Parsed? ==> |r.rest| < |b|
  {
    match ReadText(b)
    case Short => Short
    case Parsed(name, b1) =>
      match ReadText(b1)
      case Short => Short
      case Parsed(package, b2) =>
        match ReadEnumList(b2)
        case Short => Short
        case Parsed(enums, b3) =>
          match ReadFieldList(b3)
          case Short => Short
          case Parsed(fields, b4) => Parsed(MessageDef(name, package, [], fields, enums), b4)
  }

  function ReadMessage(b: Bytes): (r: Parsed<MessageDef>)
    ensures r.Parsed? ==> |r.rest| < |b|
    decreases |b|, 0
  {
    match ReadHead(b)
    case Short => Short
    case Parsed(m, b1) =>
      match ReadSize(b1)
      case Short => Short
      case Parsed(n, b2) =>
        match ReadMessages(b2, n)
        case Short => Short
        case Parsed(ms, b3) => Parsed(m.(messages := ms), b3)
  }

  function ReadMessages(b: Bytes, n: nat): (r: Parsed<seq<MessageDef>>)
    ensures r.Parsed? ==> |r.rest| <= |b|
    decreases |b|, 1
  {
    if n == 0 then Parsed([], b)
    else
      match ReadMessage(b)
      case Short => Short
      case Parsed(m, b1) => Before(m, ReadMessages(b1, n - 1))
  }

  // -------------------------------------------------------------- round trip

  /** Numbers fit their types and sizes fit size_t. */
  ghost predicate FieldFits(f: FieldDef) {
    && f.ftype < 0x1_0000_0000 && -0x8000_0000 <= f.num < 0x8000_0000
    && IsU64(|f.name|) && IsU64(|f.msgType|)
  }

  ghost predicate FieldsFit(fs: seq<FieldDef>) {
    IsU64(|fs|) && (fs != [] ==> FieldFits(fs[0]) && FieldsFit(fs[1..]))
  }

  ghost predicate EnumsFit(es: seq<EnumDef>) {
    IsU64(|es|) && (es != [] ==> IsU64(|es[0].name|) && FieldsFit(es[0].values) && EnumsFit(es[1..]))
  }

  ghost predicate MessageFits(m: MessageDef)
    decreases m, 0
  {
    && IsU64(|m.name|) && IsU64(|m.package|) && EnumsFit(m.enums) && FieldsFit(m.fields) && IsU64(|m.messages|)
    && MessagesFit(m.messages)
  }

  ghost predicate MessagesFit(ms: seq<MessageDef>)
    decreases ms
  {
    ms != [] ==> MessageFits(ms[0]) && MessagesFit(ms[1..])
  }

  /** No name in it reaches the length at which strings are not read back. */
  ghost predicate FieldNamed(f: FieldDef) { |f.name| < U32_MAX && |f.msgType| < U32_MAX }

  ghost predicate FieldsNamed(fs: seq<FieldDef>) { fs != [] ==> FieldNamed(fs[0]) && FieldsNamed(fs[1..]) }

  ghost predicate EnumNamed(e: EnumDef) { |e.name| < U32_MAX && FieldsNamed(e.values) }

  ghost predicate EnumsNamed(es: seq<EnumDef>) { es != [] ==> EnumNamed(es[0]) && EnumsNamed(es[1..]) }

  ghost predicate MessageNamed(m: MessageDef)
    decreases m, 0
  {
    && |m.name| < U32_MAX && |m.package| < U32_MAX && EnumsNamed(m.enums) && FieldsNamed(m.fields)
    && MessagesNamed(m.messages)
  }

  ghost predicate MessagesNamed(ms: seq<MessageDef>)
    decreases ms
  {
    ms != [] ==> MessageNamed(ms[0]) && MessagesNamed(ms[1..])
  }

  /** Read back exactly, or else not with the same value. */
  ghost predicate Back<T(!new)>(p: Parsed<T>, x: T, rest: Bytes, named: bool) {
    if named then p == Parsed(x, rest) else p.Parsed? ==> p.value != x
  }

  lemma {:induction false} TextBack(s: Bytes, rest: Bytes)
    requires IsU64(|s|)
    ensures Back(ReadText(TextBytes(s) + rest), s, rest, |s| < 0xFFFF_FFFF)
  {
    Assoc(VarUInt(|s|), s, rest);
    VarUIntRoundTrip(|s|, s + rest);
    assert (s + rest)[..|s|] == s && (s + rest)[|s|..] == rest;
  }

  lemma {:induction false} SizeBack(n: nat, rest: Bytes)
    requires IsU64(n)
    ensures ReadSize(SizeBytes(n) + rest) == Parsed(n, rest)
  {
    Pow256Values();
    Modulo(n, TWO_64);
    hide Fixed, ReadFixed, Pow256;
    FixedRoundTrip(n, 8, rest);
  }

  lemma {:induction false} FieldTailBack(f: FieldDef, rest: Bytes)
    requires FieldFits(f)
    ensures ReadFieldTail(f.name, f.msgType, FieldTail(f) + rest) == Parsed(f, rest)
  {
    var ftype, num, flag := Fixed(f.ftype, 4), Fixed(f.num % 0x1_0000_0000, 4), [if f.repeated then 1 else 0 as u8];
    var b := ftype + (num + (flag + rest));
    Pow256Values();
    Modulo(f.num, 0x1_0000_0000);
    Assoc(ftype, num + flag, rest);
    Assoc(num, flag, rest);
    assert FieldTail(f) + rest == b;
    FixedRoundTrip(f.ftype, 4, num + (flag + rest));
    FixedRoundTrip(f.num % 0x1_0000_0000, 4, flag + rest);
    assert (flag + rest)[0] == flag[0] && (flag + rest)[1..] == rest;
  }

  lemma {:induction false} FieldBack(f: FieldDef, rest: Bytes)
    requires FieldFits(f)
    ensures Back(ReadField(FieldBytes(f) + rest), f, rest, FieldNamed(f))
  {
    var tail := FieldTail(f) + rest;
    Assoc(TextBytes(f.name), TextBytes(f.msgType) + FieldTail(f), rest);
    Assoc(TextBytes(f.msgType), FieldTail(f), rest);
    TextBack(f.name, TextBytes(f.msgType) + tail);
    TextBack(f.msgType, tail);
    FieldTailBack(f, rest);
  }

  lemma {:induction false} FieldsBack(fs: seq<FieldDef>, rest: Bytes)
    requires FieldsFit(fs)
    ensures Back(ReadFields(FieldsBytes(fs) + rest, |fs|), fs, rest, FieldsNamed(fs))
    decreases |fs|
  {
    if fs == [] {
      assert FieldsBytes(fs) + rest == rest;
    } else {
      Assoc(FieldBytes(fs[0]), FieldsBytes(fs[1..]), rest);
      var b, b1 := FieldBytes(fs[0]) + (FieldsBytes(fs[1..]) + rest), FieldsBytes(fs[1..]) + rest;
      FieldBack(fs[0], b1);
      FieldsBack(fs[1..], rest);
      var p := ReadField(b);
      assert |fs[1..]| == |fs| - 1;
      if FieldNamed(fs[0]) {
        BeforeBack(fs[0], ReadFields(b1, |fs[1..]|), fs, rest, FieldsNamed(fs[1..]));
      } else if p.Parsed? {
        BeforeBack(p.value, ReadFields(p.rest, |fs[1..]|), fs, rest, FieldsNamed(fs[1..]));
      }
    }
  }

  lemma BeforeBack<T(!new)>(x: T, p: Parsed<seq<T>>, xs: seq<T>, rest: Bytes, named: bool)
    requires xs != []
    requires x == xs[0] ==> Back(p, xs[1..], rest, named)
    ensures Back(Before(x, p), xs, rest, x == xs[0] && named)
  {
    assert [xs[0]] + xs[1..] == xs;
    if p.Parsed? {
      var ys := [x] + p.value;
      assert ys[0] == x && ys[1..] == p.value;
    }
  }

  lemma {:induction false} FieldListBack(fs: seq<FieldDef>, rest: Bytes)
    requires FieldsFit(fs)
    ensures Back(ReadFieldList(SizeBytes(|fs|) + FieldsBytes(fs) + rest), fs, rest, FieldsNamed(fs))
  {
    Assoc(SizeBytes(|fs|), FieldsBytes(fs), rest);
    SizeBack(|fs|, FieldsBytes(fs) + rest);
    FieldsBack(fs, rest);
  }

  lemma {:induction false} EnumBack(e: EnumDef, rest: Bytes)
    requires IsU64(|e.name|) && FieldsFit(e.values)
    ensures Back(ReadEnum(EnumBytes(e) + rest), e, rest, EnumNamed(e))
  {
    var list := SizeBytes(|e.values|) + FieldsBytes(e.values);
    Assoc(TextBytes(e.name), list, rest);
    TextBack(e.name, list + rest);
    FieldListBack(e.values, rest);
  }

  lemma {:induction false} EnumsBack(es: seq<EnumDef>, rest: Bytes)
    requires EnumsFit(es)
    ensures Back(ReadEnums(EnumsBytes(es) + rest, |es|), es, rest, EnumsNamed(es))
    decreases |es|
  {
    if es == [] {
      assert EnumsBytes(es) + rest == rest;
    } else {
      Assoc(EnumBytes(es[0]), EnumsBytes(es[1..]), rest);
      var b, b1 := EnumBytes(es[0]) + (EnumsBytes(es[1..]) + rest), EnumsBytes(es[1..]) + rest;
      EnumBack(es[0], b1);
      EnumsBack(es[1..], rest);
      var p := ReadEnum(b);
      assert |es[1..]| == |es| - 1;
      if EnumNamed(es[0]) {
        BeforeBack(es[0], ReadEnums(b1, |es[1..]|), es, rest, EnumsNamed(es[1..]));
      } else if p.Parsed? {
        BeforeBack(p.value, ReadEnums(p.rest, |es[1..]|), es, rest, EnumsNamed(es[1..]));
      }
    }
  }

  lemma {:induction false} EnumListBack(es: seq<EnumDef>, rest: Bytes)
    requires EnumsFit(es)
    ensures Back(ReadEnumList(SizeBytes(|es|) + EnumsBytes(es) + rest), es, rest, EnumsNamed(es))
  {
    Assoc(SizeBytes(|es|), EnumsBytes(es), rest);
    SizeBack(|es|, EnumsBytes(es) + rest);
    EnumsBack(es, rest);
  }

  function HeadBytes(m: MessageDef): Bytes {
    TextBytes(m.name) + (TextBytes(m.package)
      + ((SizeBytes(|m.enums|) + EnumsBytes(m.enums)) + (SizeBytes(|m.fields|) + FieldsBytes(m.fields))))
  }

  ghost predicate HeadNamed(m: MessageDef) {
    |m.name| < U32_MAX && |m.package| < U32_MAX && EnumsNamed(m.enums) && FieldsNamed(m.fields)
  }

  lemma {:induction false} HeadBack(m: MessageDef, rest: Bytes)
    requires IsU64(|m.name|) && IsU64(|m.package|) && EnumsFit(m.enums) && FieldsFit(m.fields)
    ensures Back(ReadHead(HeadBytes(m) + rest), m.(messages := []), rest, HeadNamed(m))
  {
    var enums, fields := SizeBytes(|m.enums|) + EnumsBytes(m.enums), SizeBytes(|m.fields|) + FieldsBytes(m.fields);
    Assoc(TextBytes(m.name), TextBytes(m.package) + (enums + fields), rest);
    Assoc(TextBytes(m.package), enums + fields, rest);
    Assoc(enums, fields, rest);
    TextBack(m.name, TextBytes(m.package) + (enums + fields) + rest);
    TextBack(m.package, enums + fields + rest);
    EnumListBack(m.enums, fields + rest);
    FieldListBack(m.fields, rest);
  }

  lemma {:induction false} HeadFirst(m: MessageDef, rest: Bytes)
    ensures MessageBytes(m) + rest == HeadBytes(m) + (SizeBytes(|m.messages|) + (MessagesBytes(m.messages) + rest))
  {
    var name, package := TextBytes(m.name), TextBytes(m.package);
    var enums, fields := SizeBytes(|m.enums|) + EnumsBytes(m.enums), SizeBytes(|m.fields|) + FieldsBytes(m.fields);
    var nested := SizeBytes(|m.messages|) + MessagesBytes(m.messages);
    Assoc(enums, fields, nested);
    Assoc(package, enums + fields, nested);
    Assoc(name, package + (enums + fields), nested);
    Assoc(HeadBytes(m), nested, rest);
    Assoc(SizeBytes(|m.messages|), MessagesBytes(m.messages), rest);
  }

  /**
    Descriptor round trip: followed by anything, the bytes of a descriptor give
    it back and leave exactly what follows, if and only if all its strings are
    below the limit of the string reader.
   */
  lemma {:induction false} MessageBack(m: MessageDef, rest: Bytes)
    requires MessageFits(m)
    ensures Back(ReadMessage(MessageBytes(m) + rest), m, rest, MessageNamed(m))
    decreases m, 0
  {
    var nested := MessagesBytes(m.messages) + rest;
    HeadFirst(m, rest);
    HeadBack(m, SizeBytes(|m.messages|) + nested);
    SizeBack(|m.messages|, nested);
    MessagesBack(m.messages, rest);
  }

  lemma {:induction false} MessagesBack(ms: seq<MessageDef>, rest: Bytes)
    requires MessagesFit(ms)
    ensures Back(ReadMessages(MessagesBytes(ms) + rest, |ms|), ms, rest, MessagesNamed(ms))
    decreases ms
  {
    if ms == [] {
      assert MessagesBytes(ms) + rest == rest;
    } else {
      Assoc(MessageBytes(ms[0]), MessagesBytes(ms[1..]), rest);
      var b, b1 := MessageBytes(ms[0]) + (MessagesBytes(ms[1..]) + rest), MessagesBytes(ms[1..]) + rest;
      MessageBack(ms[0], b1);
      MessagesBack(ms[1..], rest);
      var p := ReadMessage(b);
      assert |ms[1..]| == |ms| - 1;
      if MessageNamed(ms[0]) {
        BeforeBack(ms[0], ReadMessages(b1, |ms[1..]|), ms, rest, MessagesNamed(ms[1..]));
      } else if p.Parsed? {
        BeforeBack(p.value, ReadMessages(p.rest, |ms[1..]|), ms, rest, MessagesNamed(ms[1..]));
      }
    }
  }

  /** The iff of MessageBack, spelled out. */
  lemma {:induction false} DescriptorRoundTrip(m: MessageDef, suffix: Bytes)
    requires MessageFits(m)
    ensures ReadMessage(MessageBytes(m) + suffix) == Parsed(m, suffix) <==> MessageNamed(m)
  {
    MessageBack(m, suffix);
  }

  /** A name of 2^32 - 1 bytes is read as an empty one, its bytes as what follows it. */
  lemma {:induction false} LongNameIsLost()
    ensures var name := seq(0xFFFF_FFFF, _ => 97 as u8); var m := MessageDef(name, [97], [], [], []);
      && MessageFits(m) && ReadMessage(MessageBytes(m)) != Parsed(m, [])
      && ReadText(TextBytes(name)) == Parsed([], name)
  {
    var name := seq(0xFFFF_FFFF, _ => 97 as u8);
    var m := MessageDef(name, [97], [], [], []);
    VarUIntRoundTrip(U32_MAX, name);
    DescriptorRoundTrip(m, []);
    assert MessageBytes(m) + [] == MessageBytes(m);
  }
}
