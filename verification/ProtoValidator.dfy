/**
  TOOLS/protoc/proto_validator.cpp: which message types, services and files the
  protocol compiler accepts.
 */
module ProtoValidator {
  import opened Basics
  import opened ProtoDef

  datatype RpcFunctionDef = RpcFunctionDef(name: Bytes, result: Bytes, param: Bytes)

  datatype ServiceDef = ServiceDef(name: Bytes, package: Bytes, functions: seq<RpcFunctionDef>)

  datatype FileDef = FileDef(package: Bytes, messages: seq<MessageDef>, services: seq<ServiceDef>)

  // ----------------------------------------------------------- specification

  /** Positive numbers, no number and no name twice: the rule for fields and for enum values. */
  ghost predicate ValidFields(fs: seq<FieldDef>) { GoodFieldNumbers(fs) && GoodFieldNames(fs) }

  ghost predicate GoodFieldNumbers(fs: seq<FieldDef>) {
    && (forall i :: 0 <= i < |fs| ==> fs[i].num > 0)
    && (forall i, j :: 0 <= i < j < |fs| ==> fs[i].num != fs[j].num)
  }

  ghost predicate GoodFieldNames(fs: seq<FieldDef>) {
    forall i, j :: 0 <= i < j < |fs| ==> fs[i].name != fs[j].name
  }

  ghost predicate ValidEnums(es: seq<EnumDef>) {
    && (forall i :: 0 <= i < |es| ==> ValidFields(es[i].values))
    && (forall i, j :: 0 <= i < j < |es| ==> es[i].name != es[j].name)
  }

  ghost predicate ValidMessage(m: MessageDef)
    decreases m, 0
  {
    m.package != [] && ValidFields(m.fields) && ValidEnums(m.enums) && ValidMessages(m.messages)
  }

  ghost predicate ValidMessages(ms: seq<MessageDef>)
    decreases ms
  {
    && (forall i :: 0 <= i < |ms| ==> ValidMessage(ms[i]))
    && (forall i, j :: 0 <= i < j < |ms| ==> ms[i].name != ms[j].name)
  }

  ghost predicate ValidService(s: ServiceDef) {
    forall i, j :: 0 <= i < j < |s.functions| ==> s.functions[i].name != s.functions[j].name
  }

  /** Messages and services share one name space. */
  ghost predicate ValidFile(f: FileDef) {
    && f.package != [] && ValidMessages(f.messages)
    && (forall i :: 0 <= i < |f.services| ==> ValidService(f.services[i]))
    && (forall i, j :: 0 <= i < j < |f.services| ==> f.services[i].name != f.services[j].name)
    && (forall i, j :: 0 <= i < |f.messages| && 0 <= j < |f.services| ==> f.messages[i].name != f.services[j].name)
  }

  // ------------------------------------------------------------------ checks

  /** The loop over the fields of a message; that over the values of an enum makes the same checks. */
  method VerifyFields(fs: seq<FieldDef>) returns (ok: bool)
    ensures ok <==> ValidFields(fs)
    ensures ok <==>
      && (forall i :: 0 <= i < |fs| ==> fs[i].num > 0)
      && forall i, j :: 0 <= i < j < |fs| ==> fs[i].num != fs[j].num && fs[i].name != fs[j].name
  {
    var knownNums: set<int>, knownNames: set<Bytes> := {}, {};
    for i := 0 to |fs|
      invariant GoodFieldNumbers(fs[..i]) && GoodFieldNames(fs[..i])
      invariant SeenNumbers(fs[..i], knownNums) && SeenNames(fs[..i], knownNames)
    {
      var num, name := fs[i].num, fs[i].name;
      NextField(fs, i, knownNums, knownNames);
      if num <= 0 { return false; }
      if num in knownNums { return false; }
      knownNums := knownNums + {num};
      if name in knownNames { return false; }
      knownNames := knownNames + {name};
    }
    assert fs[..|fs|] == fs;
    ok := true;
  }

  ghost predicate SeenNumbers(fs: seq<FieldDef>, known: set<int>) {
    forall x :: x in known <==> exists k :: 0 <= k < |fs| && fs[k].num == x
  }

  ghost predicate SeenNames(fs: seq<FieldDef>, known: set<Bytes>) {
    forall x :: x in known <==> exists k :: 0 <= k < |fs| && fs[k].name == x
  }

  /** What the checks of one field decide. */
  lemma {:induction false} NextField(fs: seq<FieldDef>, i: nat, nums: set<int>, names: set<Bytes>)
    requires i < |fs| && GoodFieldNumbers(fs[..i]) && GoodFieldNames(fs[..i])
    requires SeenNumbers(fs[..i], nums) && SeenNames(fs[..i], names)
    ensures fs[i].num <= 0 || fs[i].num in nums || fs[i].name in names ==> !ValidFields(fs)
    ensures fs[i].num > 0 && fs[i].num !in nums ==>
      GoodFieldNumbers(fs[..i + 1]) && SeenNumbers(fs[..i + 1], nums + {fs[i].num})
    ensures fs[i].name !in names ==> GoodFieldNames(fs[..i + 1]) && SeenNames(fs[..i + 1], names + {fs[i].name})
  {
    NextNumber(fs, i, nums);
    NextName(fs, i, names);
  }

  lemma {:induction false} NextNumber(fs: seq<FieldDef>, i: nat, nums: set<int>)
    requires i < |fs| && GoodFieldNumbers(fs[..i]) && SeenNumbers(fs[..i], nums)
    ensures fs[i].num <= 0 || fs[i].num in nums ==> !GoodFieldNumbers(fs)
    ensures fs[i].num > 0 && fs[i].num !in nums ==>
      GoodFieldNumbers(fs[..i + 1]) && SeenNumbers(fs[..i + 1], nums + {fs[i].num})
  {
    assert fs[..i + 1] == fs[..i] + [fs[i]];
    if fs[i].num in nums {
      var k :| 0 <= k < |fs[..i]| && fs[..i][k].num == fs[i].num;
      assert fs[k].num == fs[i].num;
    }
  }

  lemma {:induction false} NextName(fs: seq<FieldDef>, i: nat, names: set<Bytes>)
    requires i < |fs| && GoodFieldNames(fs[..i]) && SeenNames(fs[..i], names)
    ensures fs[i].name in names ==> !GoodFieldNames(fs)
    ensures fs[i].name !in names ==> GoodFieldNames(fs[..i + 1]) && SeenNames(fs[..i + 1], names + {fs[i].name})
  {
    assert fs[..i + 1] == fs[..i] + [fs[i]];
    if fs[i].name in names {
      var k :| 0 <= k < |fs[..i]| && fs[..i][k].name == fs[i].name;
      assert fs[k].name == fs[i].name;
    }
  }

  method VerifyEnums(es: seq<EnumDef>) returns (ok: bool)
    ensures ok <==> ValidEnums(es)
  {
    var known: set<Bytes> := {};
    for i := 0 to |es|
      invariant ValidEnums(es[..i])
      invariant forall k :: 0 <= k < i ==> es[k].name in known
      invariant forall x :: x in known ==> exists k :: 0 <= k < i && es[k].name == x
    {
      if es[i].name in known { return false; }
      known := known + {es[i].name};
      var fine := VerifyFields(es[i].values);
      if !fine { return false; }
    }
    assert es[..|es|] == es;
    ok := true;
  }

  method VerifyMessage(m: MessageDef) returns (ok: bool)
    ensures ok <==> ValidMessage(m)
    decreases m, 0
  {
    if m.package == [] { return false; }
    ok := VerifyFields(m.fields);
    if !ok { return; }
    ok := VerifyEnums(m.enums);
    if !ok { return; }
    var known;
    ok, known := VerifyMessages(m.messages);
  }

  /** The loop over messages, with the names it has seen. */
  method VerifyMessages(ms: seq<MessageDef>) returns (ok: bool, known: set<Bytes>)
    ensures ok <==> ValidMessages(ms)
    ensures ok ==> forall x :: x in known <==> exists k :: 0 <= k < |ms| && ms[k].name == x
    decreases ms
  {
    known := {};
    for i := 0 to |ms|
      invariant ValidMessages(ms[..i])
      invariant forall x :: x in known <==> exists k :: 0 <= k < i && ms[k].name == x
    {
      if ms[i].name in known { return false, known; }
      known := known + {ms[i].name};
      var fine := VerifyMessage(ms[i]);
      if !fine { return false, known; }
    }
    assert ms[..|ms|] == ms;
    ok := true;
  }

  method VerifyService(s: ServiceDef) returns (ok: bool)
    ensures ok <==> ValidService(s)
  {
    var known: set<Bytes> := {};
    for i := 0 to |s.functions|
      invariant forall k, j :: 0 <= k < j < i ==> s.functions[k].name != s.functions[j].name
      invariant forall x :: x in known <==> exists k :: 0 <= k < i && s.functions[k].name == x
    {
      if s.functions[i].name in known { return false; }
      known := known + {s.functions[i].name};
    }
    ok := true;
  }

  method VerifyFile(f: FileDef) returns (ok: bool)
    ensures ok <==> ValidFile(f)
  {
    if f.package == [] { return false; }
    var known;
    ok, known := VerifyMessages(f.messages);
    if !ok { return; }
    ghost var names := known;
    for i := 0 to |f.services|
      invariant forall k :: 0 <= k < i ==> ValidService(f.services[k]) && f.services[k].name !in names
      invariant forall k, j :: 0 <= k < j < i ==> f.services[k].name != f.services[j].name
      invariant forall x :: x in known <==> x in names || exists k :: 0 <= k < i && f.services[k].name == x
    {
      if f.services[i].name in known { return false; }
      known := known + {f.services[i].name};
      var fine := VerifyService(f.services[i]);
      if !fine { return false; }
    }
    ok := true;
  }
}
