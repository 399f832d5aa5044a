/**
  How the protocol compiler resolves the type names of fields, TOOLS/protoc/main.cpp,
  and what the types it accepts mean on the wire.

  Names are collected from the file and all its imports, qualified as C++ names;
  a field's type is looked for among them by its ending.
 */
module ProtoTypes {
  import opened Basics
  import opened ProtoDef
  import opened ProtoValidator
  import Wire

  const FIELD_ENUM := 15
  const FIELD_MSG := 16
  const COLONS: Bytes := [58, 58]

  /** The qualified names a field's type may stand for. */
  datatype Names = Names(messages: seq<Bytes>, enums: seq<Bytes>)

  // -------------------------------------------------------------- collecting

  /** ReplaceStr(b, ".", "::"). */
  function Scoped(b: Bytes): Bytes {
    if b == [] then [] else (if b[0] == 46 then COLONS else [b[0]]) + Scoped(b[1..])
  }

  function Below(root: Bytes, name: Bytes): Bytes { root + COLONS + name }

  function EnumNames(es: seq<EnumDef>, root: Bytes): seq<Bytes> {
    if es == [] then [] else [Below(root, es[0].name)] + EnumNames(es[1..], root)
  }

  /** All message types and enums among ms, nested ones before the message they are in. */
  function Defines(ms: seq<MessageDef>, root: Bytes): Names
    decreases ms
  {
    if ms == [] then Names([], [])
    else
      var self := Below(root, ms[0].name);
      var nested, rest := Defines(ms[0].messages, self), Defines(ms[1..], root);
      Names(nested.messages + [self] + rest.messages, nested.enums + EnumNames(ms[0].enums, self) + rest.enums)
  }

  function Joined(a: Names, b: Names): Names { Names(a.messages + b.messages, a.enums + b.enums) }

  function RootOf(f: FileDef): Bytes { COLONS + Scoped(f.package) }

  function AllDefines(files: seq<FileDef>): Names {
    if files == [] then Names([], []) else Joined(Defines(files[0].messages, RootOf(files[0])), AllDefines(files[1..]))
  }

  lemma {:induction false} JoinedTwice(a: Names, b: Names, c: Names)
    ensures Joined(Joined(a, b), c) == Joined(a, Joined(b, c)) && Joined(a, Names([], [])) == a
  {
    Assoc(a.messages, b.messages, c.messages);
    Assoc(a.enums, b.enums, c.enums);
  }

  /** The names are pushed onto the lists as the recursion finds them. */
  method CollectDefines(ms: seq<MessageDef>, root: Bytes, known: Names) returns (names: Names)
    ensures names == Joined(known, Defines(ms, root))
    decreases ms
  {
    names := known;
    JoinedTwice(known, Names([], []), Names([], []));
    assert ms[0..] == ms;
    for i := 0 to |ms|
      invariant Joined(known, Defines(ms, root)) == Joined(names, Defines(ms[i..], root))
    {
      assert ms[i..][0] == ms[i] && ms[i..][1..] == ms[i + 1..];
      ghost var before := names;
      var self := Below(root, ms[i].name);
      names := CollectDefines(ms[i].messages, self, names);
      names := names.(messages := names.messages + [self]);
      var enums := PushEnums(ms[i].enums, self, names.enums);
      names := names.(enums := enums);
      Collected(before, ms[i], self, Defines(ms[i + 1..], root));
    }
    JoinedTwice(names, names, names);
  }

  method PushEnums(es: seq<EnumDef>, root: Bytes, known: seq<Bytes>) returns (enums: seq<Bytes>)
    ensures enums == known + EnumNames(es, root)
  {
    enums := known;
    for i := 0 to |es|
      invariant known + EnumNames(es, root) == enums + EnumNames(es[i..], root)
    {
      assert es[i..][0] == es[i] && es[i..][1..] == es[i + 1..];
      Assoc(enums, [Below(root, es[i].name)], EnumNames(es[i + 1..], root));
      enums := enums + [Below(root, es[i].name)];
    }
  }

  lemma {:induction false} Collected(before: Names, m: MessageDef, self: Bytes, rest: Names)
    ensures var nested, enums := Defines(m.messages, self), EnumNames(m.enums, self);
      var after := Names(before.messages + nested.messages + [self], before.enums + nested.enums + enums);
      Joined(before, Names(nested.messages + [self] + rest.messages, nested.enums + enums + rest.enums))
        == Joined(after, rest)
  {
    var nested, enums := Defines(m.messages, self), EnumNames(m.enums, self);
    Assoc(before.messages, nested.messages, [self]);
    Assoc(before.messages, nested.messages + [self], rest.messages);
    Assoc(before.enums, nested.enums, enums);
    Assoc(before.enums, nested.enums + enums, rest.enums);
  }

  // --------------------------------------------------------------- resolving

  predicate OccursAt(c: Bytes, e: Bytes, k: nat) { k + |e| <= |c| && c[k..k + |e|] == e }

  /** The first place where e occurs in c is its end. */
  ghost predicate EndsFirst(c: Bytes, e: Bytes) {
    |e| <= |c| && OccursAt(c, e, |c| - |e|) && forall k: nat :: k < |c| - |e| ==> !OccursAt(c, e, k)
  }

  /** std::string::find, or -1. */
  method Find(c: Bytes, e: Bytes) returns (k: int)
    ensures k >= -1 && (k >= 0 ==> OccursAt(c, e, k))
    ensures forall i: nat :: k == -1 || i < k ==> !OccursAt(c, e, i)
  {
    k := 0;
    while k + |e| <= |c|
      invariant 0 <= k && forall i: nat :: i < k ==> !OccursAt(c, e, i)
    {
      if OccursAt(c, e, k) { return; }
      k := k + 1;
    }
    k := -1;
  }

  /** The first name that ends like that, or their number. */
  ghost function MatchIndex(possible: seq<Bytes>, ending: Bytes): (k: nat)
    ensures k <= |possible| && (k < |possible| ==> EndsFirst(possible[k], ending))
    ensures forall i :: 0 <= i < k ==> !EndsFirst(possible[i], ending)
  {
    if possible == [] || EndsFirst(possible[0], ending) then 0 else 1 + MatchIndex(possible[1..], ending)
  }

  method FindMatch(possible: seq<Bytes>, ending: Bytes) returns (k: nat)
    ensures k == MatchIndex(possible, ending)
  {
    k := 0;
    while k < |possible|
      invariant k <= |possible| && forall i :: 0 <= i < k ==> !EndsFirst(possible[i], ending)
    {
      if |possible[k]| >= |ending| {
        var at := Find(possible[k], ending);
        if at != -1 && |possible[k]| - at == |ending| { break; }
      }
      k := k + 1;
    }
  }

  /** fixMessageString. */
  function Qualified(name: Bytes): Bytes { COLONS + Scoped(name) }

  ghost predicate Resolves(f: FieldDef, names: Names) {
    var t := Qualified(f.msgType);
    f.ftype == FIELD_MSG ==>
      MatchIndex(names.messages, t) < |names.messages| || MatchIndex(names.enums, t) < |names.enums|
  }

  /** A field with its type resolved, or only qualified when there is no such type. */
  ghost function Resolved(f: FieldDef, names: Names): FieldDef {
    var t := Qualified(f.msgType);
    var k, l := MatchIndex(names.messages, t), MatchIndex(names.enums, t);
    if f.ftype != FIELD_MSG then f
    else if k < |names.messages| then f.(msgType := names.messages[k])
    else if l < |names.enums| then f.(msgType := names.enums[l], ftype := FIELD_ENUM)
    else f.(msgType := t)
  }

  /** The fields up to the first that does not resolve; whatever comes after that one is left alone. */
  ghost function FixedFields(fs: seq<FieldDef>, names: Names): (r: seq<FieldDef>)
    ensures |r| == |fs|
  {
    if fs == [] then []
    else [Resolved(fs[0], names)] + if Resolves(fs[0], names) then FixedFields(fs[1..], names) else fs[1..]
  }

  ghost predicate AllResolve(fs: seq<FieldDef>, names: Names) { forall f :: f in fs ==> Resolves(f, names) }

  /** Nested messages first, whose failures nobody looks at. */
  ghost function FixedMessage(m: MessageDef, names: Names): MessageDef
    decreases m, 0
  {
    m.(messages := FixedNested(m.messages, names), fields := FixedFields(m.fields, names))
  }

  ghost function FixedNested(ms: seq<MessageDef>, names: Names): seq<MessageDef>
    decreases ms
  {
    if ms == [] then [] else [FixedMessage(ms[0], names)] + FixedNested(ms[1..], names)
  }

  method FixField(f: FieldDef, names: Names) returns (r: FieldDef, ok: bool)
    ensures r == Resolved(f, names) && (ok <==> Resolves(f, names))
  {
    r, ok := f, true;
    if f.ftype != FIELD_MSG { return; }
    r := r.(msgType := Qualified(f.msgType));
    var k := FindMatch(names.messages, r.msgType);
    if k == |names.messages| {
      k := FindMatch(names.enums, r.msgType);
      if k == |names.enums| {
        ok := false;
        return;
      }
      r := r.(msgType := names.enums[k], ftype := FIELD_ENUM);
    } else {
      r := r.(msgType := names.messages[k]);
    }
  }

  method FixFields(fs: seq<FieldDef>, names: Names) returns (r: seq<FieldDef>, ok: bool)
    ensures r == FixedFields(fs, names) && (ok <==> AllResolve(fs, names))
  {
    var i := 0;
    r := fs;
    ghost var done: seq<FieldDef> := [];
    assert fs[0..] == fs && done + FixedFields(fs, names) == FixedFields(fs, names) && done + fs == fs;
    hide FixedFields, Resolves, Resolved;
    while i < |fs|
      invariant i <= |fs| && r == done + fs[i..]
      invariant FixedTo(fs, names, i, done)
    {
      var next := i + 1;
      var f;
      f, ok := FixField(fs[i], names);
      FixedNext(fs, names, i, next, done);
      r := r[i := f];
      Replaced(done, fs, i, next, f);
      if !ok { return; }
      done := done + [f];
      i := next;
    }
    FixedWhole(fs, names, done);
    ok := true;
  }

  ghost predicate FixedTo(fs: seq<FieldDef>, names: Names, i: nat, done: seq<FieldDef>) {
    && i <= |fs| && |done| == i && AllResolve(fs[..i], names)
    && FixedFields(fs, names) == done + FixedFields(fs[i..], names)
  }

  lemma {:induction false} FixedNext(fs: seq<FieldDef>, names: Names, i: nat, next: nat, done: seq<FieldDef>)
    requires FixedTo(fs, names, i, done) && next == i + 1 <= |fs|
    ensures var f := Resolved(fs[i], names);
      if Resolves(fs[i], names) then FixedTo(fs, names, next, done + [f])
      else FixedFields(fs, names) == done + [f] + fs[next..] && !AllResolve(fs, names)
  {
    hide Resolves, Resolved;
    var f := Resolved(fs[i], names);
    assert fs[i..][0] == fs[i] && fs[i..][1..] == fs[next..] && fs[..next] == fs[..i] + [fs[i]] && fs[i] in fs;
    Assoc(done, [f], fs[next..]);
    Assoc(done, [f], FixedFields(fs[next..], names));
  }

  lemma Replaced(done: seq<FieldDef>, fs: seq<FieldDef>, i: nat, next: nat, f: FieldDef)
    requires |done| == i && next == i + 1 <= |fs|
    ensures (done + fs[i..])[i := f] == done + [f] + fs[next..]
  {
  }

  lemma {:induction false} FixedWhole(fs: seq<FieldDef>, names: Names, done: seq<FieldDef>)
    requires FixedTo(fs, names, |fs|, done)
    ensures FixedFields(fs, names) == done == done + fs[|fs|..] && AllResolve(fs, names)
  {
    assert fs[..|fs|] == fs;
  }

  method FixMessage(m: MessageDef, names: Names) returns (r: MessageDef, ok: bool)
    ensures r == FixedMessage(m, names) && (ok <==> AllResolve(m.fields, names))
    decreases m
  {
    var nested: seq<MessageDef> := [];
    for i := 0 to |m.messages|
      invariant FixedNested(m.messages, names) == nested + FixedNested(m.messages[i..], names)
    {
      assert m.messages[i..][0] == m.messages[i] && m.messages[i..][1..] == m.messages[i + 1..];
      var inner, _ := FixMessage(m.messages[i], names);
      Assoc(nested, [inner], FixedNested(m.messages[i + 1..], names));
      nested := nested + [inner];
    }
    assert nested + [] == nested;
    var fields;
    fields, ok := FixFields(m.fields, names);
    r := m.(messages := nested, fields := fields);
  }

  method CollectAll(files: seq<FileDef>) returns (names: Names)
    ensures names == AllDefines(files)
  {
    names := Names([], []);
    JoinedTwice(AllDefines(files), names, names);
    assert files[0..] == files && Joined(names, AllDefines(files)) == AllDefines(files);
    for i := 0 to |files|
      invariant AllDefines(files) == Joined(names, AllDefines(files[i..]))
    {
      assert files[i..][0] == files[i] && files[i..][1..] == files[i + 1..];
      JoinedTwice(names, Defines(files[i].messages, RootOf(files[i])), AllDefines(files[i + 1..]));
      names := CollectDefines(files[i].messages, RootOf(files[i]), names);
    }
    JoinedTwice(names, names, names);
  }

  /** The messages of a file; the compiler gives up at the first with a field that does not resolve. */
  method FixFile(f: FileDef, files: seq<FileDef>) returns (r: FileDef, ok: bool)
    ensures ok <==> forall m :: m in f.messages ==> AllResolve(m.fields, AllDefines([f] + files))
    ensures ok ==> r == f.(messages := FixedNested(f.messages, AllDefines([f] + files)))
  {
    var names := CollectAll([f] + files);
    r, ok := f, true;
    var messages: seq<MessageDef> := [];
    assert f.messages[0..] == f.messages;
    hide AllDefines, AllResolve, FixedMessage;
    for i := 0 to |f.messages|
      invariant FixedNested(f.messages, names) == messages + FixedNested(f.messages[i..], names)
      invariant forall m :: m in f.messages[..i] ==> AllResolve(m.fields, names)
    {
      assert f.messages[i..][0] == f.messages[i] && f.messages[i..][1..] == f.messages[i + 1..];
      assert f.messages[..i + 1] == f.messages[..i] + [f.messages[i]] && f.messages[i] in f.messages;
      var m;
      m, ok := FixMessage(f.messages[i], names);
      if !ok { return; }
      Assoc(messages, [m], FixedNested(f.messages[i + 1..], names));
      messages := messages + [m];
    }
    assert f.messages[..|f.messages|] == f.messages && messages + [] == messages;
    r := f.(messages := messages);
  }

  // ------------------------------------------------- accepted types on the wire

  function TypeOf(t: nat): Wire.FieldType {
    match t
    case 0 => Wire.INT64
    case 1 => Wire.UINT64
    case 2 => Wire.SINT64
    case 3 => Wire.FIXED64
    case 4 => Wire.SFIXED64
    case 5 => Wire.DOUBLE
    case 6 => Wire.FLOAT
    case 7 => Wire.INT32
    case 8 => Wire.UINT32
    case 9 => Wire.SINT32
    case 10 => Wire.FIXED32
    case 11 => Wire.SFIXED32
    case 12 => Wire.STRING
    case 13 => Wire.BYTES
    case 14 => Wire.BOOL
    case 15 => Wire.ENUM
    case _ => Wire.MSG
  }

  function NameOf(b: Bytes): string {
    if b == [] then "" else [b[0] as char] + NameOf(b[1..])
  }

  /** The fields of a message type as its emitted serializers use them. */
  function Described(fs: seq<FieldDef>): (ds: seq<Wire.FieldDesc>)
    ensures |ds| == |fs| && forall i :: 0 <= i < |fs| ==> fs[i].num >= 0 ==> ds[i].num == fs[i].num
  {
    if fs == [] then []
    else
      var num: nat := if fs[0].num < 0 then 0 else fs[0].num;
      [Wire.FieldDesc(num, TypeOf(fs[0].ftype), fs[0].repeated, NameOf(fs[0].msgType))] + Described(fs[1..])
  }

  /** All message types among ms under their qualified names. */
  function SchemaOf(ms: seq<MessageDef>, root: Bytes): Wire.Schema
    decreases ms
  {
    if ms == [] then map[]
    else
      var self := Below(root, ms[0].name);
      SchemaOf(ms[1..], root) + SchemaOf(ms[0].messages, self) + map[NameOf(self) := Described(ms[0].fields)]
  }

  /** The message types of a file and those of its imports. */
  function TypesOf(files: seq<FileDef>): Wire.Schema {
    if files == [] then map[] else TypesOf(files[1..]) + SchemaOf(files[0].messages, RootOf(files[0]))
  }

  /** Field numbers are of type int, in all message types. */
  ghost predicate IntNumbers(ms: seq<MessageDef>)
    decreases ms
  {
    forall i :: 0 <= i < |ms| ==>
      IntNumbers(ms[i].messages) && forall j :: 0 <= j < |ms[i].fields| ==> ms[i].fields[j].num < 0x8000_0000
  }

  lemma {:induction false} RestAccepted(ms: seq<MessageDef>)
    requires ms != [] && ValidMessages(ms) && IntNumbers(ms)
    ensures ValidMessages(ms[1..]) && IntNumbers(ms[1..])
  {
    assert forall i :: 0 <= i < |ms[1..]| ==> ms[1..][i] == ms[i + 1];
  }

  lemma {:induction false} FirstAccepted(ms: seq<MessageDef>)
    requires ms != [] && ValidMessages(ms) && IntNumbers(ms)
    ensures ValidMessages(ms[0].messages) && IntNumbers(ms[0].messages)
    ensures Wire.GoodNumbers(Described(ms[0].fields))
  {
    assert ValidMessage(ms[0]) && ValidFields(ms[0].fields);
  }

  lemma {:induction false} Merged(a: Wire.Schema, b: Wire.Schema)
    requires Wire.GoodSchema(a) && Wire.GoodSchema(b)
    ensures Wire.GoodSchema(a + b)
  {
    hide Wire.GoodNumbers;
  }

  /** What the validator accepts has the numbers the serializers need. */
  lemma {:induction false} AcceptedSchema(ms: seq<MessageDef>, root: Bytes)
    requires ValidMessages(ms) && IntNumbers(ms)
    ensures Wire.GoodSchema(SchemaOf(ms, root))
    decreases ms
  {
    if ms != [] {
      RestAccepted(ms);
      FirstAccepted(ms);
      hide ValidMessages, IntNumbers, Described, Wire.GoodNumbers, NameOf;
      var self := Below(root, ms[0].name);
      AcceptedSchema(ms[1..], root);
      AcceptedSchema(ms[0].messages, self);
      Merged(SchemaOf(ms[1..], root), SchemaOf(ms[0].messages, self));
      var own: Wire.Schema := map[NameOf(self) := Described(ms[0].fields)];
      Merged(SchemaOf(ms[1..], root) + SchemaOf(ms[0].messages, self), own);
    } else {
      assert SchemaOf(ms, root) == map[];
    }
  }

  /** The compiler accepts a file whose types resolve and which then passes the validator. */
  ghost predicate Accepted(f: FileDef) { ValidFile(f) && IntNumbers(f.messages) }

  lemma {:induction false} AcceptedTypes(files: seq<FileDef>)
    requires forall f :: f in files ==> Accepted(f)
    ensures Wire.GoodSchema(TypesOf(files))
  {
    if files != [] {
      assert Accepted(files[0]);
      AcceptedTypes(files[1..]);
      AcceptedSchema(files[0].messages, RootOf(files[0]));
      Merged(TypesOf(files[1..]), SchemaOf(files[0].messages, RootOf(files[0])));
    }
  }

  /**
    A message of any type of accepted files survives the wire exactly if what is
    written of it, nested messages included, is in fields that a tag can hold.
   */
  lemma {:induction false} AcceptedRoundTrip(files: seq<FileDef>, typeName: string, m: Wire.Columns)
    requires forall f :: f in files ==> Accepted(f)
    requires Wire.TypedColumns(TypesOf(files), Wire.Fields(TypesOf(files), typeName), m)
    ensures var s := TypesOf(files); var ds := Wire.Fields(s, typeName);
      var back := Wire.DecodeAll(s, ds, Wire.Whole(Wire.Encode(s, ds, m)), Wire.Empty(ds));
      back == Wire.Message(Wire.CanonicalColumns(s, ds, m)) <==> Wire.Carried(s, ds, m)
  {
    AcceptedTypes(files);
    Wire.RoundTripIff(TypesOf(files), Wire.Fields(TypesOf(files), typeName), m);
  }

  // ------------------------------------------------- resolved names are types

  lemma {:induction false} DefinesAreTypes(ms: seq<MessageDef>, root: Bytes, b: Bytes)
    requires b in Defines(ms, root).messages
    ensures NameOf(b) in SchemaOf(ms, root)
    decreases ms
  {
    var self := Below(root, ms[0].name);
    var nested, rest := Defines(ms[0].messages, self), Defines(ms[1..], root);
    if b in nested.messages {
      DefinesAreTypes(ms[0].messages, self, b);
    } else if b in rest.messages {
      DefinesAreTypes(ms[1..], root, b);
    }
  }

  lemma {:induction false} AllDefinesAreTypes(files: seq<FileDef>, b: Bytes)
    requires b in AllDefines(files).messages
    ensures NameOf(b) in TypesOf(files)
  {
    if b in Defines(files[0].messages, RootOf(files[0])).messages {
      DefinesAreTypes(files[0].messages, RootOf(files[0]), b);
    } else {
      AllDefinesAreTypes(files[1..], b);
    }
  }

  /** Resolving changes no names. */
  lemma {:induction false} FixKeepsDefines(ms: seq<MessageDef>, names: Names, root: Bytes)
    ensures Defines(FixedNested(ms, names), root) == Defines(ms, root)
    decreases ms
  {
    if ms != [] {
      var r := FixedNested(ms, names);
      assert r[0] == FixedMessage(ms[0], names) && r[1..] == FixedNested(ms[1..], names);
      FixKeepsDefines(ms[0].messages, names, Below(root, ms[0].name));
      FixKeepsDefines(ms[1..], names, root);
    }
  }

  lemma {:induction false} FixedFieldAt(fs: seq<FieldDef>, names: Names, i: nat)
    requires i < |fs| && AllResolve(fs[..i], names)
    ensures FixedFields(fs, names)[i] == Resolved(fs[i], names)
  {
    if i > 0 {
      assert fs[0] in fs[..i];
      assert fs[1..][..i - 1] == fs[..i][1..];
      FixedFieldAt(fs[1..], names, i - 1);
    }
  }

  lemma {:induction false} FixedMessageAt(ms: seq<MessageDef>, names: Names, i: nat)
    requires i < |ms|
    ensures |FixedNested(ms, names)| == |ms| && FixedNested(ms, names)[i] == FixedMessage(ms[i], names)
    decreases i, 0
  {
    NestedLength(ms, names);
    if i > 0 { FixedMessageAt(ms[1..], names, i - 1); }
  }

  lemma {:induction false} NestedLength(ms: seq<MessageDef>, names: Names)
    ensures |FixedNested(ms, names)| == |ms|
    decreases ms
  {
    if ms != [] { NestedLength(ms[1..], names); }
  }

  /**
    In a file that the compiler gets through, every message-typed field outside
    nested messages names a type of the file or of one of its imports.
   */
  lemma {:induction false} FieldsHaveTypes(f: FileDef, files: seq<FileDef>, i: nat, j: nat)
    requires i < |f.messages| && j < |f.messages[i].fields|
    requires AllResolve(f.messages[i].fields, AllDefines([f] + files))
    ensures var ms := FixedNested(f.messages, AllDefines([f] + files));
      && |ms| == |f.messages| && |ms[i].fields| == |f.messages[i].fields|
      && (ms[i].fields[j].ftype == FIELD_MSG ==>
        NameOf(ms[i].fields[j].msgType) in TypesOf([f.(messages := ms)] + files))
  {
    var names := AllDefines([f] + files);
    var ms := FixedNested(f.messages, names);
    var fs := f.messages[i].fields;
    FixedMessageAt(f.messages, names, i);
    assert fs[j] in fs && forall g :: g in fs[..j] ==> g in fs;
    FixedFieldAt(fs, names, j);
    var g := ms[i].fields[j];
    if g.ftype == FIELD_MSG {
      var fixed := f.(messages := ms);
      assert g.msgType in names.messages;
      FixKeepsDefines(f.messages, names, RootOf(f));
      assert ([f] + files)[1..] == files && ([fixed] + files)[1..] == files;
      assert AllDefines([fixed] + files) == names;
      AllDefinesAreTypes([fixed] + files, g.msgType);
    }
  }

  // ----------------------------------------------------------------- examples

  /** A name matches none of these if none of them has its last byte at the end. */
  lemma {:induction false} NoneEnds(possible: seq<Bytes>, ending: Bytes)
    requires ending != [] && forall c :: c in possible && c != [] ==> c[|c| - 1] != ending[|ending| - 1]
    ensures MatchIndex(possible, ending) == |possible|
  {
  }

  lemma {:induction false} OneFile(f: FileDef)
    ensures AllDefines([f]) == Defines(f.messages, RootOf(f))
  {
    var d := Defines(f.messages, RootOf(f));
    assert [f][1..] == [] && AllDefines([]) == Names([], []);
    JoinedTwice(d, d, d);
  }

  lemma RootOfLetter(c: u8)
    requires c != 46
    ensures COLONS + Scoped([c]) == [58, 58, c] && Qualified([c]) == [58, 58, c]
  {
    assert Scoped([c]) == [c] + Scoped([]);
  }

  /** Message O of package p has a field of type I: it becomes ::p::I, the name of message I. */
  lemma {:induction false} TypeFound(i: MessageDef, o: MessageDef)
    requires i.name == [73] && o.name == [79] && i.messages == o.messages == [] && i.enums == o.enums == []
    requires |o.fields| == 1 && o.fields[0].ftype == FIELD_MSG && o.fields[0].msgType == [73]
    ensures var f := FileDef([112], [i, o], []); var names := AllDefines([f]);
      && AllResolve(o.fields, names)
      && FixedFields(o.fields, names) == [o.fields[0].(msgType := Below(RootOf(f), i.name))]
      && Wire.Fields(TypesOf([f]), NameOf(Below(RootOf(f), i.name))) == Described(i.fields)
  {
    var f := FileDef([112], [i, o], []);
    var names := AllDefines([f]);
    var root, g := RootOf(f), o.fields[0];
    var c, t: Bytes := [58, 58, 112, 58, 58, 73], [58, 58, 73];
    RootOfLetter(112);
    RootOfLetter(73);
    assert Below(root, i.name) == c;
    assert Defines([o], root).messages == [Below(root, o.name)] by { assert [o][1..] == []; }
    assert Defines([i, o], root).messages == [] + [c] + Defines([o], root).messages by { assert [i, o][1..] == [o]; }
    assert names.messages[0] == c;
    EndsOnce();
    FieldsFound(f);
    hide Scoped, Below, EndsFirst, AllDefines, TypesOf, Described, NameOf;
    assert MatchIndex(names.messages, t) == 0;
    assert o.fields == [g] && o.fields[1..] == [];
  }

  lemma EndsOnce()
    ensures EndsFirst([58, 58, 112, 58, 58, 73], [58, 58, 73])
  {
    var c, t: Bytes := [58, 58, 112, 58, 58, 73], [58, 58, 73];
    assert c[3..6] == t;
    forall k: nat | k < 3 ensures !OccursAt(c, t, k) {
      assert c[k..k + 3][2] == c[k + 2] != 73;
    }
  }

  /** The type of a file's first message is that of its fields. */
  lemma {:induction false} FieldsFound(f: FileDef)
    requires f.messages != []
    ensures Wire.Fields(TypesOf([f]), NameOf(Below(RootOf(f), f.messages[0].name))) == Described(f.messages[0].fields)
  {
    hide Described, NameOf, Below;
    var root, name := RootOf(f), NameOf(Below(RootOf(f), f.messages[0].name));
    assert name in SchemaOf(f.messages, root) && SchemaOf(f.messages, root)[name] == Described(f.messages[0].fields);
    assert [f][1..] == [] && TypesOf([f]) == TypesOf([]) + SchemaOf(f.messages, root);
  }

  /** A nested message with an unknown type in it gets through, as nobody looks at the result of resolving it. */
  lemma {:induction false} NestedGoesUnchecked(n: MessageDef, o: MessageDef)
    requires n.name == [78] && n.messages == [] && n.enums == [] && o.name == [79] && o.messages == [n]
    requires o.enums == [] && o.fields == []
    requires |n.fields| == 1 && n.fields[0].ftype == FIELD_MSG && n.fields[0].msgType == [88]
    ensures var names := AllDefines([FileDef([112], [o], [])]);
      AllResolve(o.fields, names) && !Resolves(n.fields[0], names)
  {
    var f := FileDef([112], [o], []);
    var names := AllDefines([f]);
    var root := RootOf(f);
    var self := Below(root, o.name);
    RootOfLetter(88);
    assert Defines([n], self) == Names([Below(self, n.name)], []) by { assert [n][1..] == []; }
    assert Defines([o], root) == Names([Below(self, n.name), self], []) by { assert [o][1..] == []; }
    OneFile(f);
    NoneEnds(names.messages, [58, 58, 88]);
    NoneEnds(names.enums, [58, 58, 88]);
  }

  /** Message a of package a is not found: its name occurs in ::a::a before the end. */
  lemma {:induction false} SelfNameMissed(m: MessageDef)
    requires m.name == [97] && m.messages == [] && m.enums == []
    requires |m.fields| == 1 && m.fields[0].ftype == FIELD_MSG && m.fields[0].msgType == [97]
    ensures var f := FileDef([97], [m], []); var names := AllDefines([f]);
      names.messages == [Below(RootOf(f), m.name)] && !Resolves(m.fields[0], names)
  {
    var f := FileDef([97], [m], []);
    var names := AllDefines([f]);
    var c, t: Bytes := [58, 58, 97, 58, 58, 97], [58, 58, 97];
    RootOfLetter(97);
    assert Below(RootOf(f), m.name) == c;
    assert Defines([m], RootOf(f)) == Names([c], []) by { assert [m][1..] == []; }
    OneFile(f);
    assert OccursAt(c, t, 0) by { assert c[0..3] == t; }
    assert !EndsFirst(c, t);
  }
}
