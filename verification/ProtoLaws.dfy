/**
  Descriptors in bytes, and which enumeration a field's type is found to be.
 */
module ProtoLaws {
  import opened Basics
  import opened ProtoDef
  import opened ProtoTypes
  import opened ProtoValidator
  import Varint
  import Wire

  /** A number below 256 in n bytes. */
  lemma {:induction false} SmallFixed(v: nat, n: nat)
    requires v < 256
    ensures Wire.Fixed(v, n + 1) == [v as u8] + seq(n, _ => 0 as u8)
  {
    ZeroFixed(n);
  }

  lemma {:induction false} ZeroFixed(n: nat)
    ensures Wire.Fixed(0, n) == seq(n, _ => 0 as u8)
  {
    if n > 0 { ZeroFixed(n - 1); }
  }

  lemma SmallSizes(n: nat)
    requires n < 256
    ensures n < 128 ==> Varint.VarUInt(n) == [n as u8]
    ensures Wire.Fixed(n, 4) == [n as u8, 0, 0, 0] && SizeBytes(n) == [n as u8, 0, 0, 0, 0, 0, 0, 0]
  {
    SmallFixed(n, 3);
    SmallFixed(n, 7);
  }

  /** A field: name and type with their lengths, its type number and its own number in four bytes, then the flag. */
  lemma {:induction false} FieldLayout(f: FieldDef)
    requires |f.name| < 128 && |f.msgType| < 128 && f.ftype < 256 && 0 <= f.num < 256
    ensures FieldBytes(f) == [|f.name| as u8] + f.name + [|f.msgType| as u8] + f.msgType
      + [f.ftype as u8, 0, 0, 0, f.num as u8, 0, 0, 0, if f.repeated then 1 else 0]
  {
    SmallSizes(|f.name|);
    SmallSizes(|f.msgType|);
    TailLayout(f);
    var name, msgType: Bytes := [|f.name| as u8] + f.name, [|f.msgType| as u8] + f.msgType;
    var numbers := [f.ftype as u8, 0, 0, 0, f.num as u8, 0, 0, 0, if f.repeated then 1 else 0];
    assert TextBytes(f.name) == name && TextBytes(f.msgType) == msgType;
    hide TextBytes, FieldTail;
    Assoc(name, msgType, numbers);
    Assoc(name, [|f.msgType| as u8], f.msgType);
  }

  lemma {:induction false} TailLayout(f: FieldDef)
    requires f.ftype < 256 && 0 <= f.num < 256
    ensures FieldTail(f) == [f.ftype as u8, 0, 0, 0, f.num as u8, 0, 0, 0, if f.repeated then 1 else 0]
  {
    var n: nat := f.num;
    SmallSizes(f.ftype);
    SmallSizes(n);
    var a, b := Wire.Fixed(f.ftype, 4), Wire.Fixed(n, 4);
    Wire.Modulo(f.ftype, 0x1_0000_0000);
    Wire.Modulo(f.num, 0x1_0000_0000);
    hide Wire.Fixed, SizeBytes;
    assert FieldTail(f) == a + (b + [if f.repeated then 1 else 0]);
  }

  /** A message: name, package, then its enumerations, its fields and its nested messages, each list with its size. */
  lemma {:induction false} MessageLayout(m: MessageDef)
    requires |m.name| < 128 && |m.package| < 128 && |m.enums| < 256 && |m.fields| < 256 && |m.messages| < 256
    ensures MessageBytes(m) == [|m.name| as u8] + m.name + [|m.package| as u8] + m.package
      + [|m.enums| as u8, 0, 0, 0, 0, 0, 0, 0] + EnumsBytes(m.enums)
      + [|m.fields| as u8, 0, 0, 0, 0, 0, 0, 0] + FieldsBytes(m.fields)
      + [|m.messages| as u8, 0, 0, 0, 0, 0, 0, 0] + MessagesBytes(m.messages)
  {
    SmallSizes(|m.name|);
    SmallSizes(|m.package|);
    SmallSizes(|m.enums|);
    SmallSizes(|m.fields|);
    SmallSizes(|m.messages|);
    var name, package: Bytes := [|m.name| as u8] + m.name, [|m.package| as u8] + m.package;
    var es, fs, ms := SizeBytes(|m.enums|), SizeBytes(|m.fields|), SizeBytes(|m.messages|);
    assert TextBytes(m.name) == name && TextBytes(m.package) == package;
    hide SizeBytes, TextBytes, EnumsBytes, FieldsBytes, MessagesBytes;
    Flat(name, package, es, EnumsBytes(m.enums), fs, FieldsBytes(m.fields), ms, MessagesBytes(m.messages));
    Assoc(name, [|m.package| as u8], m.package);
  }

  lemma Flat(a: Bytes, b: Bytes, c: Bytes, d: Bytes, e: Bytes, f: Bytes, g: Bytes, h: Bytes)
    ensures a + (b + ((c + d) + ((e + f) + (g + h)))) == a + b + c + d + e + f + g + h
  {
    Assoc(a + b + c + d + e + f, g, h);
    Assoc(a + b + c + d, e, f);
    Assoc(a + b, c, d);
    Assoc(a + b + (c + d), e + f, g + h);
    Assoc(a + b, c + d, (e + f) + (g + h));
    Assoc(a, b, (c + d) + ((e + f) + (g + h)));
  }

  /** An enumeration: its name and the list of its values. */
  lemma {:induction false} EnumLayout(e: EnumDef)
    requires |e.name| < 128 && |e.values| < 256
    ensures EnumBytes(e) ==
      [|e.name| as u8] + e.name + [|e.values| as u8, 0, 0, 0, 0, 0, 0, 0] + FieldsBytes(e.values)
  {
    SmallSizes(|e.name|);
    SmallSizes(|e.values|);
    var name, n := [|e.name| as u8] + e.name, SizeBytes(|e.values|);
    assert TextBytes(e.name) == name;
    hide SizeBytes, TextBytes, FieldsBytes;
    Assoc(name, n, FieldsBytes(e.values));
  }

  /** The elements of the lists follow one another in order. */
  lemma {:induction false} ListLayout(fs: seq<FieldDef>, f: FieldDef, es: seq<EnumDef>, e: EnumDef,
      ms: seq<MessageDef>, m: MessageDef)
    ensures FieldsBytes(fs + [f]) == FieldsBytes(fs) + FieldBytes(f)
    ensures EnumsBytes(es + [e]) == EnumsBytes(es) + EnumBytes(e)
    ensures MessagesBytes(ms + [m]) == MessagesBytes(ms) + MessageBytes(m)
    ensures FieldsBytes([]) == EnumsBytes([]) == MessagesBytes([]) == []
  {
    FieldsSnoc(fs, f);
    EnumsSnoc(es, e);
    MessagesSnoc(ms, m);
  }

  lemma {:induction false} FieldsSnoc(fs: seq<FieldDef>, f: FieldDef)
    ensures FieldsBytes(fs + [f]) == FieldsBytes(fs) + FieldBytes(f)
  {
    if fs == [] {
      assert (fs + [f])[1..] == [] && FieldBytes(f) + [] == FieldBytes(f);
    } else {
      assert (fs + [f])[1..] == fs[1..] + [f];
      FieldsSnoc(fs[1..], f);
      Assoc(FieldBytes(fs[0]), FieldsBytes(fs[1..]), FieldBytes(f));
    }
  }

  lemma {:induction false} EnumsSnoc(es: seq<EnumDef>, e: EnumDef)
    ensures EnumsBytes(es + [e]) == EnumsBytes(es) + EnumBytes(e)
  {
    if es == [] {
      assert (es + [e])[1..] == [] && EnumBytes(e) + [] == EnumBytes(e);
    } else {
      assert (es + [e])[1..] == es[1..] + [e];
      EnumsSnoc(es[1..], e);
      Assoc(EnumBytes(es[0]), EnumsBytes(es[1..]), EnumBytes(e));
    }
  }

  lemma {:induction false} MessagesSnoc(ms: seq<MessageDef>, m: MessageDef)
    ensures MessagesBytes(ms + [m]) == MessagesBytes(ms) + MessageBytes(m)
  {
    if ms == [] {
      assert (ms + [m])[1..] == [] && MessageBytes(m) + [] == MessageBytes(m);
    } else {
      assert (ms + [m])[1..] == ms[1..] + [m];
      MessagesSnoc(ms[1..], m);
      Assoc(MessageBytes(ms[0]), MessagesBytes(ms[1..]), MessageBytes(m));
    }
  }

  /**
    Message O of package p has an enumeration E and a field of that type: the
    field becomes one of type enum, and its type name ::p::O::E.
   */
  lemma {:induction false} EnumFound(e: EnumDef, o: MessageDef)
    requires e.name == [69] && o.name == [79] && o.messages == [] && o.enums == [e]
    requires |o.fields| == 1 && o.fields[0].ftype == 16 && o.fields[0].msgType == [69]
    ensures var names := AllDefines([FileDef([112], [o], [])]);
      && AllResolve(o.fields, names)
      && FixedFields(o.fields, names) ==
        [o.fields[0].(ftype := 15, msgType := [58, 58, 112, 58, 58, 79, 58, 58, 69])]
  {
    var f := FileDef([112], [o], []);
    var names := AllDefines([f]);
    var g := o.fields[0];
    var self, c, t: Bytes := [58, 58, 112, 58, 58, 79], [58, 58, 112, 58, 58, 79, 58, 58, 69], [58, 58, 69];
    OneEnum(e, o, self, c);
    RootOfLetter(69);
    NoneEnds([self], t);
    EndsWithE();
    hide Scoped, Below, EndsFirst, AllDefines;
    assert MatchIndex([c], t) == 0;
    assert o.fields == [g] && o.fields[1..] == [];
  }

  lemma {:induction false} OneEnum(e: EnumDef, o: MessageDef, self: Bytes, c: Bytes)
    requires e.name == [69] && o.name == [79] && o.messages == [] && o.enums == [e]
    requires self == [58, 58, 112, 58, 58, 79] && c == [58, 58, 112, 58, 58, 79, 58, 58, 69]
    ensures AllDefines([FileDef([112], [o], [])]) == Names([self], [c])
  {
    var f := FileDef([112], [o], []);
    var root := RootOf(f);
    RootOfLetter(112);
    OneFile(f);
    assert Below(root, o.name) == self && Below(self, e.name) == c;
    assert EnumNames([e], self) == [c] by { assert [e][1..] == []; }
    hide Scoped, Below;
    assert Defines([o], root) == Names([self], [c]) by { assert [o][1..] == []; }
  }

  lemma EndsWithE()
    ensures EndsFirst([58, 58, 112, 58, 58, 79, 58, 58, 69], [58, 58, 69])
  {
    var c, t: Bytes := [58, 58, 112, 58, 58, 79, 58, 58, 69], [58, 58, 69];
    assert c[6..9] == t;
    forall k: nat | k < 6 ensures !OccursAt(c, t, k) {
      assert c[k..k + 3][2] == c[k + 2] != 69;
    }
  }
}
