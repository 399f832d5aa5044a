/**
  The descriptor serializers of CORE/TYPES/protobuf.h as they run on sinks, tied
  to the byte strings and the reading functions of ProtoDef.
 */
module ProtoDefSinks {
  import opened Basics
  import opened Varint
  import opened Wire
  import opened ProtoDef
  import opened WireOutput
  import opened WireInput

  // ----------------------------------------------------------------- writing

  /** All bytes were written, or the sink has failed because they do not fit. */
  ghost predicate Sent(sink: OutSink, all: Bytes)
    reads sink
  {
    if sink.failed then sink.target != null && |all| > sink.target.Length else sink.offered == all
  }

  method PutText(sink: OutSink, s: Bytes, ghost all: Bytes)
    requires sink.Valid() && Sent(sink, all) && IsU64(|s|)
    modifies sink, sink.target
    ensures sink.Valid() && Sent(sink, all + TextBytes(s))
  {
    sink.PutVarUInt(|s|);
    if sink.failed { return; }
    sink.Put(s);
    Assoc(all, VarUInt(|s|), s);
  }

  method PutFixed(sink: OutSink, v: nat, n: nat, ghost all: Bytes)
    requires sink.Valid() && Sent(sink, all) && n > 0
    modifies sink, sink.target
    ensures sink.Valid() && Sent(sink, all + Fixed(v, n))
  {
    sink.Put(Fixed(v, n));
  }

  method PutField(sink: OutSink, f: FieldDef, ghost all: Bytes)
    requires sink.Valid() && Sent(sink, all) && FieldFits(f)
    modifies sink, sink.target
    ensures sink.Valid() && Sent(sink, all + FieldBytes(f))
  {
    ghost var name, msgType, ftype, num := TextBytes(f.name), TextBytes(f.msgType),
      Fixed(f.ftype % 0x1_0000_0000, 4), Fixed(f.num % 0x1_0000_0000, 4);
    var flag: Bytes := [if f.repeated then 1 else 0];
    PutText(sink, f.name, all);
    PutText(sink, f.msgType, all + name);
    PutFixed(sink, f.ftype % 0x1_0000_0000, 4, all + name + msgType);
    PutFixed(sink, f.num % 0x1_0000_0000, 4, all + name + msgType + ftype);
    sink.Put(flag);
    Assoc(all, name, msgType + FieldTail(f));
    Assoc(all + name, msgType, FieldTail(f));
    Assoc(all + name + msgType, ftype, num + flag);
    Assoc(all + name + msgType + ftype, num, flag);
  }

  method PutFields(sink: OutSink, fs: seq<FieldDef>, ghost all: Bytes)
    requires sink.Valid() && Sent(sink, all) && FieldsFit(fs)
    modifies sink, sink.target
    ensures sink.Valid() && Sent(sink, all + (SizeBytes(|fs|) + FieldsBytes(fs)))
  {
    PutFixed(sink, |fs| % TWO_64, 8, all);
    ghost var head, done: Bytes := all + SizeBytes(|fs|), [];
    assert head + [] == head;
    for i := 0 to |fs|
      invariant sink.Valid() && Sent(sink, head + done) && FieldsFit(fs[i..])
      invariant FieldsBytes(fs) == done + FieldsBytes(fs[i..])
    {
      assert fs[i..][0] == fs[i] && fs[i..][1..] == fs[i + 1..];
      PutField(sink, fs[i], head + done);
      Assoc(head, done, FieldBytes(fs[i]));
      Assoc(done, FieldBytes(fs[i]), FieldsBytes(fs[i + 1..]));
      done := done + FieldBytes(fs[i]);
    }
    assert done + [] == done;
    Assoc(all, SizeBytes(|fs|), FieldsBytes(fs));
  }

  method PutEnum(sink: OutSink, e: EnumDef, ghost all: Bytes)
    requires sink.Valid() && Sent(sink, all) && IsU64(|e.name|) && FieldsFit(e.values)
    modifies sink, sink.target
    ensures sink.Valid() && Sent(sink, all + EnumBytes(e))
  {
    PutText(sink, e.name, all);
    PutFields(sink, e.values, all + TextBytes(e.name));
    Assoc(all, TextBytes(e.name), SizeBytes(|e.values|) + FieldsBytes(e.values));
  }

  method PutEnums(sink: OutSink, es: seq<EnumDef>, ghost all: Bytes)
    requires sink.Valid() && Sent(sink, all) && EnumsFit(es)
    modifies sink, sink.target
    ensures sink.Valid() && Sent(sink, all + (SizeBytes(|es|) + EnumsBytes(es)))
  {
    PutFixed(sink, |es| % TWO_64, 8, all);
    ghost var head, done: Bytes := all + SizeBytes(|es|), [];
    assert head + [] == head;
    for i := 0 to |es|
      invariant sink.Valid() && Sent(sink, head + done) && EnumsFit(es[i..])
      invariant EnumsBytes(es) == done + EnumsBytes(es[i..])
    {
      assert es[i..][0] == es[i] && es[i..][1..] == es[i + 1..];
      PutEnum(sink, es[i], head + done);
      Assoc(head, done, EnumBytes(es[i]));
      Assoc(done, EnumBytes(es[i]), EnumsBytes(es[i + 1..]));
      done := done + EnumBytes(es[i]);
    }
    assert done + [] == done;
    Assoc(all, SizeBytes(|es|), EnumsBytes(es));
  }

  method PutMessage(sink: OutSink, m: MessageDef, ghost all: Bytes)
    requires sink.Valid() && Sent(sink, all) && MessageFits(m)
    modifies sink, sink.target
    ensures sink.Valid() && Sent(sink, all + MessageBytes(m))
    decreases m, 0
  {
    ghost var name, package, enums, fields, nested := TextBytes(m.name), TextBytes(m.package),
      SizeBytes(|m.enums|) + EnumsBytes(m.enums), SizeBytes(|m.fields|) + FieldsBytes(m.fields),
      SizeBytes(|m.messages|) + MessagesBytes(m.messages);
    PutText(sink, m.name, all);
    PutText(sink, m.package, all + name);
    PutEnums(sink, m.enums, all + name + package);
    PutFields(sink, m.fields, all + name + package + enums);
    PutMessages(sink, m.messages, all + name + package + enums + fields);
    Assoc(all, name, package + (enums + (fields + nested)));
    Assoc(all + name, package, enums + (fields + nested));
    Assoc(all + name + package, enums, fields + nested);
    Assoc(all + name + package + enums, fields, nested);
  }

  method PutMessages(sink: OutSink, ms: seq<MessageDef>, ghost all: Bytes)
    requires sink.Valid() && Sent(sink, all) && IsU64(|ms|) && MessagesFit(ms)
    modifies sink, sink.target
    ensures sink.Valid() && Sent(sink, all + (SizeBytes(|ms|) + MessagesBytes(ms)))
    decreases ms
  {
    PutFixed(sink, |ms| % TWO_64, 8, all);
    ghost var head, done: Bytes := all + SizeBytes(|ms|), [];
    assert head + [] == head;
    for i := 0 to |ms|
      invariant sink.Valid() && Sent(sink, head + done) && MessagesFit(ms[i..])
      invariant MessagesBytes(ms) == done + MessagesBytes(ms[i..])
    {
      assert ms[i..][0] == ms[i] && ms[i..][1..] == ms[i + 1..];
      PutMessage(sink, ms[i], head + done);
      Assoc(head, done, MessageBytes(ms[i]));
      Assoc(done, MessageBytes(ms[i]), MessagesBytes(ms[i + 1..]));
      done := done + MessageBytes(ms[i]);
    }
    assert done + [] == done;
    Assoc(all, SizeBytes(|ms|), MessagesBytes(ms));
  }

  // ----------------------------------------------------------------- reading

  function Following<T>(xs: seq<T>, p: Parsed<seq<T>>): Parsed<seq<T>> {
    match p
    case Short => Short
    case Parsed(ys, rest) => Parsed(xs + ys, rest)
  }

  lemma FollowingBefore<T(!new)>(xs: seq<T>, x: T, p: Parsed<seq<T>>)
    ensures Following(xs, Before(x, p)) == Following(xs + [x], p)
  {
    if p.Parsed? { Assoc(xs, [x], p.value); }
  }

  lemma FollowingNone<T(!new)>(p: Parsed<seq<T>>)
    ensures Following([], p) == p
  {
    if p.Parsed? { assert [] + p.value == p.value; }
  }

  /** The second window is what is left of the first. */
  ghost predicate Left(w: Window, left: Window) {
    |left.b| <= |w.b| <= w.avail && left == After(w, left.b)
  }

  method GetText(sink: InSink) returns (s: Bytes)
    requires sink.Valid() && !sink.failed
    modifies sink.Chain`pos, sink`failed
    ensures sink.Valid() && Advanced(old(sink.State()), sink.State())
    ensures Gives(ReadText(View(old(sink.State())).b), s, sink.failed, View(old(sink.State())), View(sink.State()))
  {
    ghost var src := sink.State();
    s := [];
    var size := sink.GetVarUInt();
    if sink.failed || size >= U32_MAX { return; }
    ghost var mid := sink.State();
    s := sink.Get(size);
    AdvancedTwice(src, mid, sink.State());
  }

  method GetField(sink: InSink) returns (f: FieldDef)
    requires sink.Valid() && !sink.failed
    modifies sink.Chain`pos, sink`failed
    ensures sink.Valid() && Advanced(old(sink.State()), sink.State())
    ensures Gives(ReadField(View(old(sink.State())).b), f, sink.failed, View(old(sink.State())), View(sink.State()))
  {
    ghost var src := sink.State();
    f := FieldDef([], [], 0, 0, false);
    var name := GetText(sink);
    if sink.failed { return; }
    ghost var s1 := sink.State();
    var msgType := GetText(sink);
    AdvancedTwice(src, s1, sink.State());
    if sink.failed { return; }
    ghost var s2 := sink.State();
    f := GetFieldTail(sink, name, msgType);
    AdvancedTwice(src, s2, sink.State());
  }

  method GetFieldTail(sink: InSink, name: Bytes, msgType: Bytes) returns (f: FieldDef)
    requires sink.Valid() && !sink.failed
    modifies sink.Chain`pos, sink`failed
    ensures sink.Valid() && Advanced(old(sink.State()), sink.State())
    ensures Gives(ReadFieldTail(name, msgType, View(old(sink.State())).b), f, sink.failed, View(old(sink.State())),
      View(sink.State()))
  {
    ghost var src := sink.State();
    f := FieldDef([], [], 0, 0, false);
    var ftype := sink.GetFixed(4);
    if sink.failed { return; }
    ghost var s1 := sink.State();
    var num := sink.GetFixed(4);
    AdvancedTwice(src, s1, sink.State());
    if sink.failed { return; }
    ghost var s2 := sink.State();
    var flag := sink.Get(1);
    AdvancedTwice(src, s2, sink.State());
    if !sink.failed { f := FieldDef(name, msgType, ftype, Signed(num, 0x1_0000_0000), flag[0] != 0); }
  }

  /** What reading n more gives in all. */
  function FieldsOnto(fs: seq<FieldDef>, w: Window, n: nat): Parsed<seq<FieldDef>> { Following(fs, ReadFields(w.b, n)) }

  method GetFieldItems(sink: InSink, n: nat) returns (fs: seq<FieldDef>)
    requires sink.Valid() && !sink.failed
    modifies sink.Chain`pos, sink`failed
    ensures sink.Valid() && Advanced(old(sink.State()), sink.State())
    ensures Gives(ReadFields(View(old(sink.State())).b, n), fs, sink.failed, View(old(sink.State())),
      View(sink.State()))
  {
    ghost var src, all := sink.State(), ReadFields(View(sink.State()).b, n);
    fs := [];
    SeekNothing(src);
    FollowingNone(all);
    var left := n;
    while left > 0 && !sink.failed
      invariant sink.Valid() && Advanced(src, sink.State())
      invariant sink.failed ==> all == Short
      invariant !sink.failed ==> Left(View(src), View(sink.State())) && all == FieldsOnto(fs, View(sink.State()), left)
      decreases !sink.failed, left
    {
      ghost var before := sink.State();
      var f := GetField(sink);
      AdvancedTwice(src, before, sink.State());
      var next := left - 1;
      FieldListed(fs, View(before), View(sink.State()), left, next, f, sink.failed);
      fs, left := fs + [f], next;
    }
    assert fs + [] == fs;
  }

  lemma {:induction false} FieldListed(fs: seq<FieldDef>, before: Window, after: Window, n: nat, k: nat, f: FieldDef,
      failed: bool)
    requires n == k + 1 && Gives(ReadField(before.b), f, failed, before, after)
    ensures FieldsOnto(fs, before, n) == if failed then Short else FieldsOnto(fs + [f], after, k)
  {
    FollowingBefore(fs, f, ReadFields(after.b, n - 1));
  }

  method GetFields(sink: InSink) returns (fs: seq<FieldDef>)
    requires sink.Valid() && !sink.failed
    modifies sink.Chain`pos, sink`failed
    ensures sink.Valid() && Advanced(old(sink.State()), sink.State())
    ensures Gives(ReadFieldList(View(old(sink.State())).b), fs, sink.failed, View(old(sink.State())),
      View(sink.State()))
  {
    ghost var src := sink.State();
    fs := [];
    var n := sink.GetFixed(8);
    if sink.failed { return; }
    ghost var mid := sink.State();
    fs := GetFieldItems(sink, n);
    AdvancedTwice(src, mid, sink.State());
  }

  method GetEnum(sink: InSink) returns (e: EnumDef)
    requires sink.Valid() && !sink.failed
    modifies sink.Chain`pos, sink`failed
    ensures sink.Valid() && Advanced(old(sink.State()), sink.State())
    ensures Gives(ReadEnum(View(old(sink.State())).b), e, sink.failed, View(old(sink.State())), View(sink.State()))
  {
    ghost var src := sink.State();
    e := EnumDef([], []);
    var name := GetText(sink);
    if sink.failed { return; }
    ghost var mid := sink.State();
    var values := GetFields(sink);
    AdvancedTwice(src, mid, sink.State());
    e := EnumDef(name, values);
  }

  /** What reading n more gives in all. */
  function EnumsOnto(es: seq<EnumDef>, w: Window, n: nat): Parsed<seq<EnumDef>> { Following(es, ReadEnums(w.b, n)) }

  method GetEnumItems(sink: InSink, n: nat) returns (es: seq<EnumDef>)
    requires sink.Valid() && !sink.failed
    modifies sink.Chain`pos, sink`failed
    ensures sink.Valid() && Advanced(old(sink.State()), sink.State())
    ensures Gives(ReadEnums(View(old(sink.State())).b, n), es, sink.failed, View(old(sink.State())), View(sink.State()))
  {
    ghost var src, all := sink.State(), ReadEnums(View(sink.State()).b, n);
    es := [];
    SeekNothing(src);
    FollowingNone(all);
    var left := n;
    while left > 0 && !sink.failed
      invariant sink.Valid() && Advanced(src, sink.State())
      invariant sink.failed ==> all == Short
      invariant !sink.failed ==> Left(View(src), View(sink.State())) && all == EnumsOnto(es, View(sink.State()), left)
      decreases !sink.failed, left
    {
      ghost var before := sink.State();
      var e := GetEnum(sink);
      AdvancedTwice(src, before, sink.State());
      var next := left - 1;
      EnumListed(es, View(before), View(sink.State()), left, next, e, sink.failed);
      es, left := es + [e], next;
    }
    assert es + [] == es;
  }

  lemma {:induction false} EnumListed(es: seq<EnumDef>, before: Window, after: Window, n: nat, k: nat, e: EnumDef,
      failed: bool)
    requires n == k + 1 && Gives(ReadEnum(before.b), e, failed, before, after)
    ensures EnumsOnto(es, before, n) == if failed then Short else EnumsOnto(es + [e], after, k)
  {
    FollowingBefore(es, e, ReadEnums(after.b, n - 1));
  }

  method GetEnums(sink: InSink) returns (es: seq<EnumDef>)
    requires sink.Valid() && !sink.failed
    modifies sink.Chain`pos, sink`failed
    ensures sink.Valid() && Advanced(old(sink.State()), sink.State())
    ensures Gives(ReadEnumList(View(old(sink.State())).b), es, sink.failed, View(old(sink.State())), View(sink.State()))
  {
    ghost var src := sink.State();
    es := [];
    var n := sink.GetFixed(8);
    if sink.failed { return; }
    ghost var mid := sink.State();
    es := GetEnumItems(sink, n);
    AdvancedTwice(src, mid, sink.State());
  }

  /** Everything before the nested messages. */
  method GetHead(sink: InSink) returns (m: MessageDef)
    requires sink.Valid() && !sink.failed
    modifies sink.Chain`pos, sink`failed
    ensures sink.Valid() && Advanced(old(sink.State()), sink.State())
    ensures Gives(ReadHead(View(old(sink.State())).b), m, sink.failed, View(old(sink.State())), View(sink.State()))
  {
    ghost var src := sink.State();
    m := MessageDef([], [], [], [], []);
    var name := GetText(sink);
    if sink.failed { return; }
    ghost var s1 := sink.State();
    var package := GetText(sink);
    AdvancedTwice(src, s1, sink.State());
    if sink.failed { return; }
    ghost var s2 := sink.State();
    var enums := GetEnums(sink);
    AdvancedTwice(src, s2, sink.State());
    if sink.failed { return; }
    ghost var s3 := sink.State();
    var fields := GetFields(sink);
    AdvancedTwice(src, s3, sink.State());
    m := MessageDef(name, package, [], fields, enums);
  }

  method GetMessage(sink: InSink) returns (m: MessageDef)
    requires sink.Valid() && !sink.failed
    modifies sink.Chain`pos, sink`failed
    ensures sink.Valid() && Advanced(old(sink.State()), sink.State())
    ensures Gives(ReadMessage(View(old(sink.State())).b), m, sink.failed, View(old(sink.State())), View(sink.State()))
    decreases |View(sink.State()).b|, 0
  {
    ghost var src := sink.State();
    m := GetHead(sink);
    if sink.failed { return; }
    ghost var s1 := sink.State();
    var n := sink.GetFixed(8);
    AdvancedTwice(src, s1, sink.State());
    if sink.failed { return; }
    ghost var s2 := sink.State();
    var messages := GetMessageItems(sink, n);
    AdvancedTwice(src, s2, sink.State());
    m := m.(messages := messages);
  }

  /** What reading n more gives in all. */
  function MessagesOnto(ms: seq<MessageDef>, w: Window, n: nat): Parsed<seq<MessageDef>> {
    Following(ms, ReadMessages(w.b, n))
  }

  method GetMessageItems(sink: InSink, n: nat) returns (ms: seq<MessageDef>)
    requires sink.Valid() && !sink.failed
    modifies sink.Chain`pos, sink`failed
    ensures sink.Valid() && Advanced(old(sink.State()), sink.State())
    ensures Gives(ReadMessages(View(old(sink.State())).b, n), ms, sink.failed, View(old(sink.State())),
      View(sink.State()))
    decreases |View(sink.State()).b|, 1
  {
    ghost var src, all := sink.State(), ReadMessages(View(sink.State()).b, n);
    ms := [];
    SeekNothing(src);
    FollowingNone(all);
    var left := n;
    while left > 0 && !sink.failed
      invariant sink.Valid() && Advanced(src, sink.State())
      invariant sink.failed ==> all == Short
      invariant !sink.failed ==>
        Left(View(src), View(sink.State())) && all == MessagesOnto(ms, View(sink.State()), left)
      decreases !sink.failed, left
    {
      ghost var before := sink.State();
      var m := GetMessage(sink);
      AdvancedTwice(src, before, sink.State());
      var next := left - 1;
      MessageListed(ms, View(before), View(sink.State()), left, next, m, sink.failed);
      ms, left := ms + [m], next;
    }
    assert ms + [] == ms;
  }

  lemma {:induction false} MessageListed(ms: seq<MessageDef>, before: Window, after: Window, n: nat, k: nat,
      m: MessageDef, failed: bool)
    requires n == k + 1 && Gives(ReadMessage(before.b), m, failed, before, after)
    ensures MessagesOnto(ms, before, n) == if failed then Short else MessagesOnto(ms + [m], after, k)
  {
    FollowingBefore(ms, m, ReadMessages(after.b, n - 1));
  }

  /** A descriptor sized with a counting sink, written to a blob of that size and read back is the same. */
  method SendAndReceive(m: MessageDef) returns (r: MessageDef, size: nat, ok: bool)
    requires MessageFits(m) && MessageNamed(m)
    ensures ok && r == m && size == |MessageBytes(m)|
  {
    hide MessageBytes, MessageFits, MessageNamed, ReadMessage;
    var sizer := new OutSink.Fake();
    PutMessage(sizer, m, []);
    size := sizer.pos;
    var blob := new u8[size];
    var sink := new OutSink.Over(blob);
    PutMessage(sink, m, []);
    assert [] + MessageBytes(m) == MessageBytes(m);
    assert blob[..] == blob[..sink.pos] == MessageBytes(m);
    var source := new InSink.OverBlob(blob[..]);
    assert MessageBytes(m) + [] == MessageBytes(m);
    DescriptorRoundTrip(m, []);
    r := GetMessage(source);
    ok := !sink.failed && !source.failed;
  }
}
