/**
  The reading side of the wire format: the sinks of CORE/BASE/serializer_basesinks.h
  and the emitted deserializers that read from them step by step.

  A sink is a blob with a position, or a range over a parent sink.  Its state is
  abstracted to a Source value, whose view is the Window that Wire.DecodeAll reads.
 */
module WireInput {
  import opened Basics
  import opened Varint
  import opened Wire
  import WireOutput
  import opened WireTruncated

  /** A blob from its position on, or a range with its remaining size over a parent. */
  datatype Source = Blob(rest: Bytes) | Range(size: nat, parent: Source)

  function Least(a: nat, b: nat): nat { if a < b then a else b }

  function Cut(w: Window, size: nat): Window {
    Window(if size < |w.b| then w.b[..size] else w.b, size)
  }

  /** What can be read from a source. */
  function View(src: Source): (w: Window)
    ensures Sane(w)
  {
    match src
    case Blob(rest) => Whole(rest)
    case Range(size, parent) => Cut(View(parent), size)
  }

  /** A seek on a range is capped, then passed on to the parent. */
  function Seek(src: Source, n: nat): Source {
    match src
    case Blob(rest) => Blob(if n < |rest| then rest[n..] else [])
    case Range(size, parent) => var k := Least(n, size); Range(size - k, Seek(parent, k))
  }

  /** Seeking on the chain of sinks is skipping on the view. */
  lemma {:induction false} SeekIsSkip(src: Source, n: nat)
    ensures View(Seek(src, n)) == Skip(View(src), n)
  {
    match src
    case Blob(_) =>
    case Range(size, parent) =>
      var k := Least(n, size);
      SeekIsSkip(parent, k);
      CutOfSkip(View(parent), size, k);
      if n > k { assert View(Seek(src, n)).b == []; }
  }

  lemma {:induction false} CutOfSkip(w: Window, size: nat, k: nat)
    requires k <= size
    ensures Cut(Skip(w, k), size - k) == Skip(Cut(w, size), k)
  {
    var l, r := Cut(Skip(w, k), size - k), Skip(Cut(w, size), k);
    assert l.b == r.b;
  }

  lemma {:induction false} SeekTwice(src: Source, a: nat, b: nat)
    ensures Seek(Seek(src, a), b) == Seek(src, a + b)
  {
    match src
    case Blob(rest) => DropTwice(rest, a, b);
    case Range(size, parent) =>
      var k := Least(a, size);
      var l := Least(b, size - k);
      var both := k + l;
      assert Least(a + b, size) == both;
      SeekTwice(parent, k, l);
  }

  lemma DropTwice(rest: Bytes, a: nat, b: nat)
    ensures Seek(Seek(Blob(rest), a), b) == Seek(Blob(rest), a + b)
  {
    if a + b < |rest| { assert rest[a..][b..] == rest[a + b..]; }
  }

  /** Some bytes have been used up, on the source and on every parent alike. */
  ghost predicate Advanced(before: Source, after: Source) {
    && View(after).avail <= View(before).avail
    && after == Seek(before, View(before).avail - View(after).avail)
  }

  lemma {:induction false} SeekAdvances(src: Source, n: nat)
    ensures Advanced(src, Seek(src, n))
  {
    SeekIsSkip(src, n);
    if src.Blob? && n > |src.rest| { assert Seek(src, n) == Seek(src, |src.rest|); }
  }

  lemma {:induction false} SeekNothing(src: Source)
    ensures Seek(src, 0) == src && Advanced(src, src)
  {
    if src.Range? { SeekNothing(src.parent); }
  }

  lemma {:induction false} AdvancedTwice(a: Source, b: Source, c: Source)
    requires Advanced(a, b) && Advanced(b, c)
    ensures Advanced(a, c)
  {
    SeekTwice(a, View(a).avail - View(b).avail, View(b).avail - View(c).avail);
  }

  /** The first n bytes of a window are b and leave the other window. */
  ghost predicate Consumed(w: Window, b: Bytes, n: nat, left: Window) {
    && n <= |w.b| <= w.avail
    && b == w.b[..n]
    && left == After(w, w.b[n..])
  }

  /** The groups still to come complete the value read so far. */
  ghost predicate Pending(all: Bytes, left: Bytes, full: nat, scale: nat) {
    ReadGroups(all) == match ReadGroups(left)
                       case Short => Short
                       case Parsed(x, rest) => Parsed(full + scale * x, rest)
  }

  lemma {:induction false} NextGroup(all: Bytes, left: Bytes, full: nat, scale: nat)
    requires left != [] && Pending(all, left, full, scale)
    ensures var sum := full + Shifted(left[0], scale);
      if left[0] < 128 then ReadGroups(all) == Parsed(sum, left[1..]) else Pending(all, left[1..], sum, scale * 128)
  {
    var g := left[0] as nat % 128;
    if left[0] < 128 {
      Distribute(scale, g, 0);
    } else {
      assert left[0] as nat - 128 == g;
      if ReadGroups(left[1..]).Parsed? { Distribute(scale, g, ReadGroups(left[1..]).value); }
    }
  }

  lemma Distribute(scale: nat, g: nat, x: nat)
    ensures scale * (g + 128 * x) == g * scale + scale * 128 * x
  {
  }

  lemma AddGroup(full: nat, fragment: u8, scale: nat)
    ensures var g := Shifted(fragment, scale); (full % TWO_64 + g) % TWO_64 == (full + g) % TWO_64
  {
  }

  /** The seven bits of a fragment, moved to their place. */
  function Shifted(fragment: u8, scale: nat): nat { fragment as nat % 128 * scale }

  /** The invariant of the varint loop. */
  ghost predicate Reading(src: Source, cur: Source, v: nat, full: nat, scale: nat, more: bool) {
    var w, left := View(src), View(cur).b;
    && Advanced(src, cur) && |left| <= |w.b| && View(cur) == After(w, left) && v == full % TWO_64
    && if more then Pending(w.b, left, full, scale) else ReadGroups(w.b) == Parsed(full, left)
  }

  lemma {:induction false} ReadOn(src: Source, cur: Source, next: Source, fragment: u8, v: nat, full: nat, scale: nat)
    requires Reading(src, cur, v, full, scale, true)
    requires Advanced(cur, next) && Consumed(View(cur), [fragment], 1, View(next))
    ensures var g := Shifted(fragment, scale);
      Reading(src, next, (v + g) % TWO_64, full + g, scale * 128, fragment >= 128)
  {
    var left := View(cur).b;
    assert left[..1][0] == left[0] == fragment;
    AdvancedTwice(src, cur, next);
    AddGroup(full, fragment, scale);
    NextGroup(View(src).b, left, full, scale);
  }

  /** The same with the fail flag, which was set before or is set when the bytes end first. */
  ghost predicate Grouping(src: Source, cur: Source, v: nat, full: nat, scale: nat, more: bool,
      before: bool, failed: bool)
  {
    && Advanced(src, cur)
    && if before then failed
       else if failed then !more && View(cur).b == [] && ReadGroups(View(src).b).Short?
       else Reading(src, cur, v, full, scale, more)
  }

  /** A reading step did what the parse of the bytes before it says. */
  ghost predicate Gives<T>(p: Parsed<T>, v: T, failed: bool, before: Window, after: Window) {
    match p
    case Short => failed
    case Parsed(x, rest) => !failed && v == x && |rest| <= |before.b| <= before.avail && after == After(before, rest)
  }

  function Wrapped(n: nat): nat { n % TWO_64 }

  lemma {:induction false} GroupRead(src: Source, cur: Source, next: Source, fragment: u8,
      v: nat, full: nat, scale: nat, before: bool, failed: bool)
    requires Grouping(src, cur, v, full, scale, true, before, before) && Advanced(cur, next)
    requires failed <==> before || View(cur).b == []
    requires if View(cur).b == [] then View(next).b == [] else Consumed(View(cur), [fragment], 1, View(next))
    ensures var g := Shifted(fragment, scale);
      Grouping(src, next, Wrapped(v + g), full + g, scale * 128, !failed && fragment >= 128, before, failed)
    ensures !failed ==> |View(next).b| < |View(cur).b|
  {
    AdvancedTwice(src, cur, next);
    if !failed { ReadOn(src, cur, next, fragment, v, full, scale); }
  }

  lemma {:induction false} GroupsRead(src: Source, cur: Source, v: nat, full: nat, scale: nat,
      before: bool, failed: bool)
    requires Grouping(src, cur, v, full, scale, false, before, failed)
    ensures Advanced(src, cur) && (before ==> failed)
    ensures !before ==> Gives(ReadVarUInt(View(src).b), v, failed, View(src), View(cur))
    ensures !before && failed ==> View(cur).b == []
  {
  }

  function Little(b: Bytes): nat {
    if b == [] then 0 else b[0] as nat + 256 * Little(b[1..])
  }

  lemma {:induction false} FixedSplit(b: Bytes, n: nat)
    ensures ReadFixed(b, n) == if |b| < n then Short else Parsed(Little(b[..n]), b[n..])
    decreases n
  {
    if n > 0 && b != [] {
      FixedSplit(b[1..], n - 1);
      if n <= |b| { assert b[..n][1..] == b[1..][..n - 1] && b[1..][n - 1..] == b[n..]; }
    }
  }

  /** When the decoder takes a value of these bytes, this one was stored and that is left. */
  ghost predicate Takes(t: Taken, v: Option<Value>, failed: bool, after: Window) {
    t.Taken? ==> !failed && v == Some(t.v) && after == t.w
  }

  /** The flag and the bytes left are what is said of them. */
  ghost predicate Ends(e: Ending, failed: bool, after: Window) {
    failed == e.failed && after.b == e.rest
  }

  lemma {:induction false} SeekOn(src: Source, mid: Source, n: nat)
    requires Advanced(src, mid)
    ensures Advanced(src, Seek(mid, n)) && View(Seek(mid, n)) == Skip(View(mid), n)
  {
    SeekAdvances(mid, n);
    AdvancedTwice(src, mid, Seek(mid, n));
    SeekIsSkip(mid, n);
  }

  /** What is read through a range is used up on its parent; all of it when the range is empty. */
  lemma {:induction false} RangeUsed(size: nat, parent: Source, after: Source)
    requires Advanced(Range(size, parent), after)
    ensures after.Range? && Advanced(parent, after.parent)
    ensures View(after).avail == 0 ==> View(after.parent) == Skip(View(parent), size)
  {
    SeekAdvances(parent, size - View(after).avail);
    SeekIsSkip(parent, size);
  }

  /** Using bytes up leaves no more of them, and none that were only claimed. */
  lemma {:induction false} AdvancedShrinks(before: Source, after: Source)
    requires Advanced(before, after)
    ensures |View(after).b| <= |View(before).b|
    ensures View(before) == Whole(View(before).b) ==> View(after) == Whole(View(after).b)
  {
    SeekIsSkip(before, View(before).avail - View(after).avail);
  }

  lemma {:induction false} RangeParts(size: nat, parent: Source, after: Source, k: nat)
    requires Advanced(Range(size, parent), after) && k == size - View(after).avail
    ensures after.Range? && View(after.parent).b == Drop(View(parent).b, k)
    ensures View(after).b == First(View(after.parent).b, size - k)
  {
    SeekIsSkip(parent, k);
  }

  /** A parent has left what its range has not been asked for, and what lies behind the range. */
  lemma {:induction false} RangeLeft(size: nat, parent: Source, after: Source)
    requires Advanced(Range(size, parent), after)
    ensures after.Range? && View(after.parent).b == View(after).b + Drop(View(parent).b, size)
  {
    var k := size - View(after).avail;
    RangeParts(size, parent, after, k);
    hide *;
    DropSplit(View(parent).b, k, size - k);
  }

  lemma DropSplit(b: Bytes, k: nat, n: nat)
    ensures Drop(b, k) == First(Drop(b, k), n) + Drop(b, k + n)
  {
    if k + n < |b| { assert b[k..][n..] == b[k + n..]; }
  }

  /** A nested message is what its range holds, and the range is passed over whole. */
  lemma {:induction false} NestedTaken(s: Schema, d: FieldDesc, src: Source, size: nat, mid: Source,
      m: Columns, after: Window)
    requires d.ftype == MSG && Gives(ReadVarUInt(View(src).b), size, false, View(src), View(mid))
    requires var ds := Fields(s, d.msgType);
      var all := DecodeAll(s, ds, View(Range(size, mid)), Empty(ds));
      all.Message? ==> m == all.m && after == Skip(View(mid), size)
    ensures Takes(Take(s, d, View(src)), Some(Nested(m)), false, after)
  {
    var rest := View(mid).b;
    assert View(Range(size, mid)) == Window(if size < |rest| then rest[..size] else rest, size);
    hide View, DecodeAll, Skip;
  }

  /** A string as long as the size in these bytes, beginning with those of its bytes that are there. */
  ghost predicate BeginsWith(v: Option<Value>, b: Bytes) {
    match ReadVarUInt(b)
    case Short => false
    case Parsed(size, rest) =>
      v.Some? && v.value.Text? && |v.value.bytes| == size && First(rest, size) <= v.value.bytes
  }

  /** A string is as long as its size says, and is what was sent if all of it is there. */
  lemma {:induction false} TextRead(s: Schema, d: FieldDesc, src: Source, mid: Source, size: nat,
      bytes: Bytes)
    requires WireType(d.ftype) == 2 && d.ftype != MSG && size <= MAX_TEXT
    requires Gives(ReadVarUInt(View(src).b), size, false, View(src), View(mid))
    requires |bytes| == size && First(View(mid).b, size) <= bytes
    ensures Takes(Take(s, d, View(src)), Some(Text(bytes)), false, Skip(View(mid), size))
    ensures Ends(ValueEnding(s, d, View(src).b), false, Skip(View(mid), size))
    ensures BeginsWith(Some(Text(bytes)), View(src).b)
  {
    if size <= |View(mid).b| { assert bytes == View(mid).b[..size]; }
  }

  lemma {:induction false} NestedEnds(s: Schema, d: FieldDesc, src: Source, size: nat, mid: Source, after: Source)
    requires d.ftype == MSG && Gives(ReadVarUInt(View(src).b), size, false, View(src), View(mid))
    requires Advanced(Range(size, mid), after)
    requires View(after).b == MessageEnding(s, Fields(s, d.msgType), First(View(mid).b, size)).rest
    ensures after.Range? && Ends(ValueEnding(s, d, View(src).b), false, View(after.parent))
  {
    hide Advanced, Seek, MessageEnding;
    RangeLeft(size, mid, after);
  }

  /** What reading a nested message through its range comes to for the sink below. */
  lemma {:induction false} NestedRead(s: Schema, d: FieldDesc, src: Source, size: nat, mid: Source,
      m: Columns, after: Source)
    requires d.ftype == MSG && Gives(ReadVarUInt(View(src).b), size, false, View(src), View(mid))
    requires Advanced(src, mid) && Advanced(Range(size, mid), after)
    requires var ds := Fields(s, d.msgType);
      var all := DecodeAll(s, ds, View(Range(size, mid)), Empty(ds));
      && (all.Message? ==> m == all.m && View(after).avail == 0)
      && View(after).b == MessageEnding(s, ds, View(Range(size, mid)).b).rest
    ensures after.Range? && Advanced(src, after.parent)
    ensures Takes(Take(s, d, View(src)), Some(Nested(m)), false, View(after.parent))
    ensures Ends(ValueEnding(s, d, View(src).b), false, View(after.parent))
  {
    hide Advanced, Seek, MessageEnding, DecodeAll, Take, ValueEnding, Takes, Ends;
    RangeUsed(size, mid, after);
    AdvancedTwice(src, mid, after.parent);
    NestedTaken(s, d, src, size, mid, m, View(after.parent));
    NestedEnds(s, d, src, size, mid, after);
  }

  class InSink {
    const data: Bytes
    const over: InSink?
    /** Position in the blob, or size left of the range. */
    var pos: nat
    var failed: bool
    ghost const Chain: set<InSink>

    ghost predicate Valid()
      reads Chain`pos
      decreases Chain
    {
      && this in Chain
      && if over == null then pos <= |data|
         else over.Chain < Chain && this !in over.Chain && over.Valid()
    }

    ghost function State(): Source
      requires Valid()
      reads Chain`pos
      decreases Chain
    {
      if over == null then Blob(data[pos..]) else Range(pos, over.State())
    }

    constructor OverBlob(data: Bytes)
      ensures Valid() && State() == Blob(data) && !failed && Chain == {this}
    {
      this.data, over, pos, failed, Chain := data, null, 0, false, {this};
    }

    constructor OverSink(sink: InSink, size: nat)
      requires sink.Valid()
      ensures Valid() && State() == Range(size, sink.State()) && !failed && over == sink && Chain == sink.Chain + {this}
    {
      data, over, pos, failed, Chain := [], sink, size, false, sink.Chain + {this};
    }

    method Read(n: nat) returns (b: Bytes)
      requires Valid()
      modifies Chain`pos
      ensures Valid() && State() == Seek(old(State()), n)
      ensures b == First(View(old(State())).b, n)
      decreases Chain
    {
      if over == null {
        var k := Least(n, |data| - pos);
        b := data[pos..pos + k];
        pos := pos + k;
      } else {
        var k := Least(n, pos);
        pos := pos - k;
        b := over.Read(k);
      }
    }

    method SeekBy(n: nat)
      requires Valid()
      modifies Chain`pos
      ensures Valid() && State() == Seek(old(State()), n)
      decreases Chain
    {
      if over == null {
        pos := if |data| - pos < n then |data| else pos + n;
      } else {
        var k := Least(n, pos);
        pos := pos - k;
        over.SeekBy(k);
      }
    }

    method Avail() returns (n: nat)
      requires Valid()
      ensures n == View(State()).avail
    {
      n := if over == null then |data| - pos else pos;
    }

    /** The emitted read of n bytes: a short one gives what there is and sets the fail flag. */
    method Get(n: nat) returns (b: Bytes)
      requires Valid()
      modifies Chain`pos, this`failed
      ensures Valid() && Advanced(old(State()), State())
      ensures b == First(View(old(State())).b, n)
      ensures failed <==> old(failed) || |View(old(State())).b| < n
      ensures if |View(old(State())).b| < n then View(State()).b == []
              else Consumed(View(old(State())), b, n, View(State()))
    {
      SeekAdvances(State(), n);
      SeekIsSkip(State(), n);
      b := Read(n);
      if |b| != n { failed := true; }
    }

    /** Base 128 groups into a 64-bit accumulator; a byte that is not there counts as the one before it. */
    method GetVarUInt() returns (v: nat)
      requires Valid()
      modifies Chain`pos, this`failed
      ensures Valid() && Advanced(old(State()), State()) && (old(failed) ==> failed)
      ensures !old(failed) ==>
        Gives(ReadVarUInt(View(old(State())).b), v, failed, View(old(State())), View(State()))
      ensures !old(failed) && failed ==> View(State()).b == []
    {
      var scale: nat, more, fragment: u8 := 1, true, *;
      ghost var src, full: nat := State(), 0;
      SeekNothing(src);
      v := 0;
      assert Grouping(src, State(), v, full, scale, more, old(failed), failed);
      hide Grouping, Consumed, Shifted, Wrapped, Gives, Advanced, ReadGroups;
      while more
        invariant Valid() && Grouping(src, State(), v, full, scale, more, old(failed), failed)
        invariant more ==> failed == old(failed)
        decreases more, |View(State()).b|
      {
        ghost var before := State();
        var b := Get(1);
        if b != [] { fragment := b[0]; }
        GroupRead(src, before, State(), fragment, v, full, scale, old(failed), failed);
        var group := Shifted(fragment, scale);
        v, full := Wrapped(v + group), full + group;
        scale, more := scale * 128, !failed && fragment >= 128;
      }
      GroupsRead(src, State(), v, full, scale, old(failed), failed);
    }

    /** A little-endian number of n bytes; with too few of them it is any number. */
    method GetFixed(n: nat) returns (v: nat)
      requires Valid()
      modifies Chain`pos, this`failed
      ensures Valid() && Advanced(old(State()), State()) && (old(failed) ==> failed)
      ensures !old(failed) ==>
        Gives(ReadFixed(View(old(State())).b, n), v, failed, View(old(State())), View(State()))
      ensures !old(failed) && failed ==> View(State()).b == []
    {
      FixedSplit(View(State()).b, n);
      v := *;
      var b := Get(n);
      if |b| == n { v := Little(b); }
    }

    method GetScalar(t: FieldType) returns (v: Value)
      requires Valid() && WireType(t) != 2
      modifies Chain`pos, this`failed
      ensures Valid() && Advanced(old(State()), State()) && (old(failed) ==> failed)
      ensures !old(failed) ==>
        Gives(ReadScalar(t, View(old(State())).b), v, failed, View(old(State())), View(State()))
      ensures !old(failed) && failed ==> View(State()).b == []
    {
      hide ReadGroups, ReadFixed, Signed, UnZigZag, Advanced;
      if WireType(t) == 5 {
        var x := GetFixed(4);
        v := Num(if t == SFIXED32 then Signed(x, 0x1_0000_0000) else x);
      } else if WireType(t) == 1 {
        var x := GetFixed(8);
        v := Num(if t == SFIXED64 then Signed(x, TWO_64) else x);
      } else {
        var x := GetVarUInt();
        if t == UINT32 || t == UINT64 || t == ENUM {
          v := Num(if t == UINT64 then x
                   else if t == UINT32 then x % 0x1_0000_0000
                   else Signed(x, 0x1_0000_0000));
        } else {
          var z := UnZigZag(x);
          v := Num(if t == BOOL then (if z != 0 then 1 else 0)
                   else if t == INT32 || t == SINT32 then Signed(z, 0x1_0000_0000)
                   else z);
        }
      }
    }

    /** Reads into a new buffer, keeping what it held where nothing was read. */
    method Fill(size: nat) returns (b: Bytes)
      requires Valid()
      modifies Chain`pos
      ensures Valid() && State() == Seek(old(State()), size)
      ensures |b| == size && First(View(old(State())).b, size) <= b
    {
      var buffer := new u8[size];
      var got := Read(size);
      b := got + buffer[|got|..];
    }

    /**
      Length and bytes of a string.  Nothing looks at how many bytes were read, so
      that a string that is cut off ends in whatever the new buffer held.
     */
    method GetText(s: Schema, d: FieldDesc) returns (v: Option<Value>)
      requires Valid() && (d.ftype == STRING || d.ftype == BYTES)
      modifies Chain`pos, this`failed
      ensures Valid() && Advanced(old(State()), State()) && (old(failed) ==> failed)
      ensures !old(failed) ==> Takes(Take(s, d, View(old(State()))), v, failed, View(State()))
      ensures !old(failed) ==> Ends(ValueEnding(s, d, View(old(State())).b), failed, View(State()))
      ensures failed ==> v == None
      ensures !failed ==> BeginsWith(v, View(old(State())).b)
    {
      ghost var src := State();
      v := None;
      var size := GetVarUInt();
      if failed { return; }
      if size > MAX_TEXT {
        failed := true;
        return;
      }
      hide Take, ValueEnding, Ends, Takes, BeginsWith;
      ghost var mid := State();
      SeekOn(src, mid, size);
      var bytes := Fill(size);
      v := Some(Text(bytes));
      TextRead(s, d, src, mid, size, bytes);
    }

    /** A nested message, read from a range over this sink, which keeps its fail flag to itself. */
    method GetNested(s: Schema, d: FieldDesc) returns (v: Option<Value>)
      requires Valid() && d.ftype == MSG
      modifies Chain`pos, this`failed
      ensures Valid() && Advanced(old(State()), State()) && (old(failed) ==> failed)
      ensures !old(failed) ==> Takes(Take(s, d, View(old(State()))), v, failed, View(State()))
      ensures !old(failed) ==> Ends(ValueEnding(s, d, View(old(State())).b), failed, View(State()))
      decreases |View(State()).b|, 0
    {
      ghost var src := State();
      v := None;
      var size := GetVarUInt();
      if failed { return; }
      hide Take, DecodeAll, MessageEnding, ValueEnding, Ends, Takes, Advanced;
      ghost var mid := State();
      RestShorter(View(src).b);
      var sub := new InSink.OverSink(this, size);
      var m := sub.GetMessage(s, Fields(s, d.msgType));
      v := Some(Nested(m));
      NestedRead(s, d, src, size, mid, m, sub.State());
    }

    method GetValue(s: Schema, d: FieldDesc) returns (v: Option<Value>)
      requires Valid()
      modifies Chain`pos, this`failed
      ensures Valid() && Advanced(old(State()), State()) && (old(failed) ==> failed)
      ensures !old(failed) ==> Takes(Take(s, d, View(old(State()))), v, failed, View(State()))
      ensures !old(failed) ==> Ends(ValueEnding(s, d, View(old(State())).b), failed, View(State()))
      decreases |View(State()).b|, 1
    {
      if d.ftype == MSG {
        v := GetNested(s, d);
      } else if d.ftype == STRING || d.ftype == BYTES {
        v := GetText(s, d);
      } else {
        var x := GetScalar(d.ftype);
        v := Some(x);
      }
    }

    /** Skips the value of a field the message does not have. */
    method PassValue(wt: nat)
      requires Valid()
      modifies Chain`pos, this`failed
      ensures Valid() && Advanced(old(State()), State()) && (old(failed) ==> failed)
      ensures !old(failed) ==>
        match Pass(wt, View(old(State())))
        case Stuck => failed
        case Passed(w) => !failed && View(State()) == w
      ensures !old(failed) ==> Ends(PassEnding(wt, View(old(State())).b), failed, View(State()))
    {
      ghost var src := State();
      SeekNothing(src);
      if wt == 0 || wt == 2 {
        var x := GetVarUInt();
        if wt == 2 {
          ghost var mid := State();
          SeekOn(src, mid, UnZigZag(x) % TWO_64);
          SeekBy(UnZigZag(x) % TWO_64);
        }
      } else if wt == 1 {
        SeekOn(src, src, 8);
        SeekBy(8);
      } else if wt == 5 {
        SeekOn(src, src, 4);
        SeekBy(4);
      }
    }

    /** One turn of the emitted loop, which goes on with whatever tag it has read. */
    method GetRecord(s: Schema, ds: seq<FieldDesc>, obj: Columns) returns (m: Columns)
      requires Valid() && !failed
      modifies Chain`pos, this`failed
      ensures Valid() && Advanced(old(State()), State())
      ensures var t := Turn(s, ds, View(old(State())), obj);
        t.Goes? ==> !failed && m == t.m && View(State()) == t.w
      ensures Ends(TurnEnding(s, ds, View(old(State())).b), failed, View(State()))
      decreases |View(State()).b|, 2
    {
      ghost var src := State();
      m := obj;
      var tag := GetVarUInt();
      ghost var mid := State();
      AdvancedShrinks(src, mid);
      var num, wt := tag % 0x1_0000_0000 / 8, tag % 8;
      var i := IndexOf(ds, num);
      if i < |ds| {
        var v := GetValue(s, ds[i]);
        if v.Some? { m := StoreAt(ds, obj, i, v.value); }
      } else {
        PassValue(wt);
      }
      AdvancedTwice(src, mid, State());
      AdvancedShrinks(mid, State());
    }

    /** The emitted operator>> on a new builder. */
    method GetMessage(s: Schema, ds: seq<FieldDesc>) returns (m: Columns)
      requires Valid() && !failed
      modifies Chain`pos, this`failed
      ensures Valid() && Advanced(old(State()), State())
      ensures var all := DecodeAll(s, ds, View(old(State())), Empty(ds));
        all.Message? ==> !failed && m == all.m && View(State()).avail == 0
      ensures var w := View(old(State())); var e := MessageEnding(s, ds, w.b);
        View(State()).b == e.rest && (w == Whole(w.b) ==> failed == e.failed)
      decreases |View(State()).b|, 3
    {
      ghost var src := State();
      ghost var w := View(src);
      ghost var all, e := DecodeAll(s, ds, w, Empty(ds)), MessageEnding(s, ds, w.b);
      SeekNothing(src);
      m := Empty(ds);
      var avail := Avail();
      while avail != 0 && !failed
        invariant Valid() && Advanced(src, State()) && avail == View(State()).avail
        invariant |View(State()).b| <= |w.b| && (w == Whole(w.b) ==> View(State()) == Whole(View(State()).b))
        invariant all.Message? ==> !failed && all == DecodeAll(s, ds, View(State()), m)
        invariant !failed ==> MessageEnding(s, ds, View(State()).b) == e
        invariant failed ==> View(State()).b == e.rest && (w == Whole(w.b) ==> e.failed)
        decreases !failed, |View(State()).b|
      {
        ghost var before := State();
        m := GetRecord(s, ds, m);
        AdvancedTwice(src, before, State());
        AdvancedShrinks(before, State());
        avail := Avail();
      }
    }
  }

  /** Written to a blob of the measured size and read back, a message arrives in canonical form. */
  method SendAndReceive(s: Schema, ds: seq<FieldDesc>, m: Columns) returns (r: Columns, ok: bool)
    requires GoodSchema(s) && GoodNumbers(ds) && TypedColumns(s, ds, m) && Carried(s, ds, m)
    ensures ok && r == CanonicalColumns(s, ds, m)
  {
    var blob, written := WireOutput.SizeThenWrite(s, ds, m);
    var sink := new InSink.OverBlob(blob[..]);
    MessageRoundTrip(s, ds, m);
    r := sink.GetMessage(s, ds);
    ok := written && !sink.failed;
  }

  /** When only the first k bytes of a message arrive, the reader notices exactly if they end where CutShort says. */
  method SendAndCut(s: Schema, ds: seq<FieldDesc>, m: Columns, k: nat) returns (r: Columns, ok: bool)
    requires GoodSchema(s) && GoodNumbers(ds) && TypedColumns(s, ds, m) && Carried(s, ds, m)
    requires k <= |Encode(s, ds, m)|
    ensures ok <==> !CutShort(s, ItemsOf(ds, m), k)
    ensures k == |Encode(s, ds, m)| ==> ok && r == CanonicalColumns(s, ds, m)
  {
    var blob, _ := WireOutput.SizeThenWrite(s, ds, m);
    var sink := new InSink.OverBlob(blob[..k]);
    MessageRoundTrip(s, ds, m);
    CutMessage(s, ds, m, k);
    assert k == blob.Length ==> blob[..k] == blob[..];
    r := sink.GetMessage(s, ds);
    ok := !sink.failed;
  }
}
