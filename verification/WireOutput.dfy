/**
  The writing side of the wire format: the sinks of CORE/BASE/serializer_basesinks.h
  and the serializers that write to them step by step.

  One class stands for FakeSink (no target, it only counts) and BlobSink (a
  target of fixed size).  All bytes handed to write are remembered in a ghost
  field, so that what the serializers produce can be compared with Wire.Encode.
 */
module WireOutput {
  import opened Basics
  import opened Varint
  import opened Wire

  /**
    How many bytes at the end of an encoding are written without a look at the
    result: those of the string it ends with.  A nested message contributes the
    string its own encoding ends with.
   */
  ghost function Unlooked(s: Schema, d: FieldDesc, v: Value): nat
    decreases v
  {
    match v
    case Num(_) => 0
    case Text(bytes) => |bytes|
    case Nested(m) => UnlookedAfter(s, Fields(s, d.msgType), m, 0)
  }

  /** The same for a column, or n if it writes nothing. */
  ghost function UnlookedColumn(s: Schema, d: FieldDesc, vs: Values, n: nat): nat
    decreases vs
  {
    match vs
    case Nil => n
    case Cons(v, t) => UnlookedColumn(s, d, t, if Written(d, v) then Unlooked(s, d, v) else n)
  }

  /** The same for a message, or n if it writes nothing. */
  ghost function UnlookedAfter(s: Schema, ds: seq<FieldDesc>, m: Columns, n: nat): nat
    decreases m
  {
    match m
    case NoMore => n
    case Column(vs, rest) =>
      if ds == [] then n else UnlookedAfter(s, ds[1..], rest, UnlookedColumn(s, ds[0], vs, n))
  }

  lemma {:induction false} ColumnEnd(s: Schema, d: FieldDesc, vs: Values, n: nat)
    ensures var xs := ColumnItems(d, vs);
      if xs == [] then UnlookedColumn(s, d, vs, n) == n
      else xs[|xs| - 1].Known? && xs[|xs| - 1].d == d && UnlookedColumn(s, d, vs, n) == Unlooked(s, d, xs[|xs| - 1].v)
  {
    if vs.Cons? {
      var next := if Written(d, vs.head) then Unlooked(s, d, vs.head) else n;
      ColumnEnd(s, d, vs.tail, next);
      var xs, ys := ColumnItems(d, vs), ColumnItems(d, vs.tail);
      assert ys != [] ==> xs[|xs| - 1] == ys[|ys| - 1];
    }
  }

  /** It is the string of the last record that the encoder writes. */
  lemma {:induction false} UnlookedIsLastString(s: Schema, ds: seq<FieldDesc>, m: Columns, n: nat)
    ensures var xs := ItemsOf(ds, m);
      if xs == [] then UnlookedAfter(s, ds, m, n) == n
      else var x := xs[|xs| - 1]; x.Known? && UnlookedAfter(s, ds, m, n) == Unlooked(s, x.d, x.v)
  {
    if m.Column? && ds != [] {
      ColumnEnd(s, ds[0], m.values, n);
      UnlookedIsLastString(s, ds[1..], m.rest, UnlookedColumn(s, ds[0], m.values, n));
      var xs, ys := ItemsOf(ds, m), ItemsOf(ds[1..], m.rest);
      assert xs == ColumnItems(ds[0], m.values) + ys;
      assert ys != [] ==> xs[|xs| - 1] == ys[|ys| - 1];
      assert ys == [] ==> xs == ColumnItems(ds[0], m.values);
    }
  }

  class OutSink {
    const target: array?<u8>
    /** m_size of a FakeSink, m_pos of a BlobSink. */
    var pos: nat
    var failed: bool
    ghost var offered: Bytes
    /** Number of bytes offered up to the end of the last write whose result was looked at. */
    ghost var looked: nat

    ghost predicate Valid()
      reads this, target
    {
      && looked <= |offered|
      && if target == null then pos == |offered| && !failed
         else
           && pos == (if |offered| < target.Length then |offered| else target.Length)
           && target[..pos] == offered[..pos]
           && (failed <==> looked > target.Length)
    }

    constructor Fake()
      ensures Valid() && offered == [] && target == null && !failed
    {
      target, pos, failed, offered, looked := null, 0, false, [], 0;
    }

    constructor Over(blob: array<u8>)
      ensures Valid() && offered == [] && target == blob && !failed
    {
      target, pos, failed, offered, looked := blob, 0, false, [], 0;
    }

    /** Copies what fits and says how much that was. */
    method Write(b: Bytes) returns (n: nat)
      requires Valid()
      modifies this`pos, this`offered, target
      ensures Valid() && offered == old(offered) + b
      ensures n == |b| <==> target == null || |offered| <= target.Length || b == []
    {
      if target == null {
        n := |b|;
      } else {
        n := if |b| < target.Length - pos then |b| else target.Length - pos;
        Copy(b[..n]);
        assert (offered + b)[..pos + n] == offered[..pos] + b[..n];
      }
      pos := pos + n;
      offered := offered + b;
    }

    /** memcpy to the position. */
    method Copy(b: Bytes)
      requires target != null && pos + |b| <= target.Length
      modifies target
      ensures target[..pos + |b|] == old(target[..pos]) + b
    {
      for i := 0 to |b|
        invariant target[..pos + i] == old(target[..pos]) + b[..i]
      {
        target[pos + i] := b[i];
        assert target[..pos + i + 1] == target[..pos + i] + [b[i]];
        assert b[..i + 1] == b[..i] + [b[i]];
      }
      assert b[..|b|] == b;
    }

    /** A write that sets the fail flag when it is cut short. */
    method Put(b: Bytes)
      requires Valid()
      modifies this, target
      ensures Valid() && offered == old(offered) + b && looked == if b == [] then old(looked) else |offered|
    {
      var n := Write(b);
      if n != |b| { failed := true; }
      looked := if b == [] then looked else |offered|;
    }

    method PutVarUInt(v: nat)
      requires Valid() && IsU64(v)
      modifies this, target
      ensures Valid() && offered == old(offered) + VarUInt(v) && looked == |offered|
    {
      var value, bit := v, 0;
      var bits := new u8[12];
      AtMostTenBytes(v);
      VarUIntLength(v, 0);
      while value / 128 > 0
        invariant bit <= 10 && VarUInt(v) == bits[..bit] + VarUInt(value)
        invariant Valid() && offered == old(offered)
        decreases value
      {
        var low, high := value % 128 + 128, value / 128;
        ghost var done := bits[..bit];
        VarUIntLength(high, 0);
        bits[bit] := low as u8;
        assert bits[..bit + 1] == done + [low as u8];
        Assoc(done, [low as u8], VarUInt(high));
        bit, value := bit + 1, high;
      }
      VarUIntLength(value, 0);
      bits[bit] := value as u8;
      assert bits[..bit + 1] == bits[..bit] + [bits[bit]];
      Put(bits[..bit + 1]);
    }

    method PutScalar(t: FieldType, n: int)
      requires Valid() && WireType(t) != 2 && InWidth(t, n)
      modifies this, target
      ensures Valid() && offered == old(offered) + Scalar(t, n) && looked == |offered|
    {
      if WireType(t) == 5 {
        Put(Fixed(n % 0x1_0000_0000, 4));
      } else if WireType(t) == 1 {
        Put(Fixed(n % TWO_64, 8));
      } else if t == UINT32 || t == UINT64 || t == ENUM {
        PutVarUInt(n % TWO_64);
      } else {
        ZigZagBijective(n, 0);
        PutVarUInt(ZigZag(n));
      }
    }

    /** The bytes of a string are written without a look at the result. */
    method PutText(bytes: Bytes)
      requires Valid() && IsU64(|bytes|)
      modifies this, target
      ensures Valid() && offered == old(offered) + (VarUInt(|bytes|) + bytes) && looked == |offered| - |bytes|
    {
      PutVarUInt(|bytes|);
      var written := Write(bytes);
      Assoc(old(offered), VarUInt(|bytes|), bytes);
    }

    /** A nested message is serialized twice: into a counting sink for its size, then for good. */
    method PutValue(s: Schema, d: FieldDesc, v: Value)
      requires Valid() && GoodSchema(s) && Typed(s, d, v)
      modifies this, target
      ensures Valid() && offered == old(offered) + Payload(s, d, v) && looked == |offered| - Unlooked(s, d, v)
      decreases v, 0
    {
      if v.Num? {
        PutScalar(d.ftype, v.n);
      } else if v.Text? {
        PutText(v.bytes);
      } else {
        var ds := Fields(s, d.msgType);
        var sizer := new OutSink.Fake();
        sizer.PutMessage(s, ds, v.msg);
        PutVarUInt(sizer.pos);
        PutMessage(s, ds, v.msg);
        Assoc(old(offered), VarUInt(|Encode(s, ds, v.msg)|), Encode(s, ds, v.msg));
      }
    }

    method PutColumn(s: Schema, d: FieldDesc, vs: Values)
      requires Valid() && GoodSchema(s) && TypedAll(s, d, vs)
      modifies this, target
      ensures Valid() && offered == old(offered) + EncodeColumn(s, d, vs)
      ensures looked == |offered| - UnlookedColumn(s, d, vs, old(|offered| - looked))
      decreases vs, 0
    {
      var left := vs;
      ghost var done: Bytes := [];
      while left.Cons?
        invariant Valid() && TypedAll(s, d, left) && (left == vs || left < vs)
        invariant offered == old(offered) + done
        invariant EncodeColumn(s, d, vs) == done + EncodeColumn(s, d, left)
        invariant UnlookedColumn(s, d, vs, old(|offered| - looked)) == UnlookedColumn(s, d, left, |offered| - looked)
        decreases left
      {
        var v := left.head;
        ghost var written := if Written(d, v) then Record(s, d, v) else [];
        ghost var before := offered;
        if Written(d, v) {
          PutVarUInt(Tag(d));
          PutValue(s, d, v);
          Assoc(before, VarUInt(Tag(d)), Payload(s, d, v));
        }
        assert offered == before + written;
        Assoc(old(offered), done, written);
        Assoc(done, written, EncodeColumn(s, d, left.tail));
        done := done + written;
        left := left.tail;
      }
      assert done + [] == done;
    }

    /** The emitted operator<<: field by field in descriptor order. */
    method PutMessage(s: Schema, ds: seq<FieldDesc>, m: Columns)
      requires Valid() && GoodSchema(s) && GoodNumbers(ds) && TypedColumns(s, ds, m)
      modifies this, target
      ensures Valid() && offered == old(offered) + Encode(s, ds, m)
      ensures looked == |offered| - UnlookedAfter(s, ds, m, old(|offered| - looked))
      decreases m
    {
      hide UnlookedColumn, EncodeColumn, UnlookedAfter, Encode, TypedColumns, TypedAll, GoodSchema;
      ghost var start, before: nat := offered, |offered| - looked;
      var cols := m;
      ghost var done: Bytes, last := [], before;
      assert ds[0..] == ds && start + done == start && done + Encode(s, ds, m) == Encode(s, ds, m);
      for i := 0 to |ds|
        invariant Valid() && TypedColumns(s, ds[i..], cols) && (cols == m || cols < m)
        invariant offered == start + done && last == |offered| - looked
        invariant Encode(s, ds, m) == done + Encode(s, ds[i..], cols)
        invariant UnlookedAfter(s, ds, m, before) == UnlookedAfter(s, ds[i..], cols, last)
      {
        FirstColumn(s, ds, i, cols, last);
        ghost var column, rest := EncodeColumn(s, ds[i], cols.values), Encode(s, ds[i + 1..], cols.rest);
        PutColumn(s, ds[i], cols.values);
        Assoc(start, done, column);
        Assoc(done, column, rest);
        done, last := done + column, |offered| - looked;
        cols := cols.rest;
      }
      NoColumn(s, ds[|ds|..], cols, last);
      assert done + [] == done;
    }
  }

  lemma {:induction false} FirstColumn(s: Schema, ds: seq<FieldDesc>, i: nat, cols: Columns, n: nat)
    requires i < |ds| && TypedColumns(s, ds[i..], cols)
    ensures cols.Column? && TypedAll(s, ds[i], cols.values) && TypedColumns(s, ds[i + 1..], cols.rest)
    ensures Encode(s, ds[i..], cols) == EncodeColumn(s, ds[i], cols.values) + Encode(s, ds[i + 1..], cols.rest)
    ensures UnlookedAfter(s, ds[i..], cols, n) ==
      UnlookedAfter(s, ds[i + 1..], cols.rest, UnlookedColumn(s, ds[i], cols.values, n))
  {
    assert ds[i..][0] == ds[i] && ds[i..][1..] == ds[i + 1..];
  }

  lemma {:induction false} NoColumn(s: Schema, ds: seq<FieldDesc>, cols: Columns, n: nat)
    requires ds == [] && TypedColumns(s, ds, cols)
    ensures Encode(s, ds, cols) == [] && UnlookedAfter(s, ds, cols, n) == n
  {
  }

  /** A target of the size a counting sink measures takes the whole message and nothing fails. */
  method SizeThenWrite(s: Schema, ds: seq<FieldDesc>, m: Columns) returns (blob: array<u8>, ok: bool)
    requires GoodSchema(s) && GoodNumbers(ds) && TypedColumns(s, ds, m)
    ensures ok && blob[..] == Encode(s, ds, m)
  {
    var sizer := new OutSink.Fake();
    sizer.PutMessage(s, ds, m);
    blob := new u8[sizer.pos];
    var sink := new OutSink.Over(blob);
    sink.PutMessage(s, ds, m);
    ok := !sink.failed;
    assert blob[..] == blob[..sink.pos] == Encode(s, ds, m);
  }

  /**
    Writing to a blob of any size: it takes what fits, and the fail flag is set
    exactly when more than the string at the end does not fit.
   */
  method WriteInto(blob: array<u8>, s: Schema, ds: seq<FieldDesc>, m: Columns) returns (failed: bool)
    requires GoodSchema(s) && GoodNumbers(ds) && TypedColumns(s, ds, m)
    modifies blob
    ensures failed <==> |Encode(s, ds, m)| - UnlookedAfter(s, ds, m, 0) > blob.Length
    ensures if |Encode(s, ds, m)| < blob.Length then blob[..|Encode(s, ds, m)|] == Encode(s, ds, m)
            else blob[..] == Encode(s, ds, m)[..blob.Length]
  {
    var sink := new OutSink.Over(blob);
    sink.PutMessage(s, ds, m);
    failed := sink.failed;
    assert [] + Encode(s, ds, m) == Encode(s, ds, m);
    assert blob[..blob.Length] == blob[..];
  }

  /** A message of one string of two bytes is cut by a blob of three without the fail flag. */
  lemma CutSilently()
    ensures var ds := [FieldDesc(1, STRING, false, "")]; var m := Column(Cons(Text([97, 98]), Nil), NoMore);
      && GoodNumbers(ds) && TypedColumns(map[], ds, m)
      && |Encode(map[], ds, m)| == 4 > 3 && |Encode(map[], ds, m)| - UnlookedAfter(map[], ds, m, 0) <= 3
  {
    var d, v := FieldDesc(1, STRING, false, ""), Text([97, 98]);
    assert VarUInt(Tag(d)) == [10] && VarUInt(2) == [2];
    assert |Record(map[], d, v)| == 4;
    assert EncodeColumn(map[], d, Cons(v, Nil)) == Record(map[], d, v) + [];
  }
}
