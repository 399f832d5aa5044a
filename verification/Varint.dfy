/**
  Base 128 varints and the zigzag mapping of CORE/BASE/serializer_podtypes.h and
  CORE/TYPES/varint_types.h.
 */
module Varint {
  import opened Basics

  const TWO_64: int := 0x1_0000_0000_0000_0000
  const TWO_63: int := 0x8000_0000_0000_0000

  ghost predicate IsU64(v: int) { 0 <= v < TWO_64 }

  ghost predicate IsS64(v: int) { -TWO_63 <= v < TWO_63 }

  datatype Parsed<T> = Short | Parsed(value: T, rest: Bytes)

  // ------------------------------------------------------------- encoding

  function VarUInt(v: nat): (b: Bytes)
    decreases v
  {
    if v < 128 then [v as u8] else [(v % 128 + 128) as u8] + VarUInt(v / 128)
  }

  /** Bytes up to the first without a continuation bit, seven bits each, least significant first. */
  function ReadGroups(b: Bytes): Parsed<nat>
    decreases |b|
  {
    if b == [] then Short
    else if b[0] < 128 then Parsed(b[0] as nat, b[1..])
    else
      match ReadGroups(b[1..])
      case Short => Short
      case Parsed(v, rest) => Parsed((b[0] as nat - 128) + 128 * v, rest)
  }

  /** What the decoder's 64-bit accumulator ends up with. */
  function ReadVarUInt(b: Bytes): Parsed<nat> {
    match ReadGroups(b)
    case Short => Short
    case Parsed(v, rest) => Parsed(v % TWO_64, rest)
  }

  lemma {:induction false} GroupsRoundTrip(v: nat, suffix: Bytes)
    ensures ReadGroups(VarUInt(v) + suffix) == Parsed(v, suffix)
    decreases v
  {
    var b := VarUInt(v) + suffix;
    if v < 128 {
      assert b[1..] == suffix;
    } else {
      GroupsRoundTrip(v / 128, suffix);
      assert b[1..] == VarUInt(v / 128) + suffix;
    }
  }

  /** Decoding an encoding followed by anything gives the value and leaves the rest. */
  lemma {:induction false} VarUIntRoundTrip(v: nat, suffix: Bytes)
    requires IsU64(v)
    ensures ReadVarUInt(VarUInt(v) + suffix) == Parsed(v, suffix)
  {
    GroupsRoundTrip(v, suffix);
  }

  function Pow128(k: nat): (p: nat)
    ensures p > 0
  {
    if k == 0 then 1 else 128 * Pow128(k - 1)
  }

  /** An encoding has exactly as many bytes as the value has groups of seven bits, at least one. */
  lemma {:induction false} VarUIntLength(v: nat, k: nat)
    ensures VarUInt(v) != []
    ensures k > 0 ==> (|VarUInt(v)| <= k <==> v < Pow128(k))
    decreases v
  {
    if v < 128 {
      if k > 0 { Pow128Grows(k); }
    } else if k > 0 {
      VarUIntLength(v / 128, k - 1);
      if k == 1 { assert Pow128(1) == 128 * Pow128(0); }
    }
  }

  lemma {:induction false} Pow128Grows(k: nat)
    requires k > 0
    ensures Pow128(k) >= 128
  {
    if k > 1 { Pow128Grows(k - 1); }
  }

  lemma {:induction false} AtMostTenBytes(v: nat)
    requires IsU64(v)
    ensures |VarUInt(v)| <= 10
  {
    assert Pow128(10) > TWO_64 by {
      assert Pow128(2) == 0x4000;
      assert Pow128(4) == 0x1000_0000;
      assert Pow128(6) == 0x400_0000_0000;
      assert Pow128(8) == 0x100_0000_0000_0000;
    }
    VarUIntLength(v, 10);
  }

  /** What the groups of a byte string stand for needs no more bytes than they take. */
  lemma {:induction false} GroupsAreMinimal(b: Bytes)
    requires ReadGroups(b).Parsed?
    ensures |b| - |ReadGroups(b).rest| >= |VarUInt(ReadGroups(b).value)|
    decreases |b|
  {
    if b[0] >= 128 {
      var v := ReadGroups(b[1..]).value;
      GroupsAreMinimal(b[1..]);
      var w := ReadGroups(b).value;
      if w >= 128 { assert w / 128 == v; } else { VarUIntLength(v, 1); }
    }
  }

  lemma {:induction false} SmallerIsNoLonger(v: nat, w: nat)
    requires v <= w
    ensures |VarUInt(v)| <= |VarUInt(w)|
  {
    var k := |VarUInt(w)|;
    VarUIntLength(w, k);
    VarUIntLength(v, k);
  }

  /** No byte string the decoder turns into a value is shorter than that value's encoding. */
  lemma {:induction false} EncodingIsMinimal(b: Bytes)
    requires ReadVarUInt(b).Parsed?
    ensures |b| - |ReadVarUInt(b).rest| >= |VarUInt(ReadVarUInt(b).value)|
  {
    var v := ReadGroups(b).value;
    GroupsAreMinimal(b);
    SmallerIsNoLonger(v % TWO_64, v);
  }

  /** No encoding is a proper prefix of another. */
  lemma {:induction false} PrefixFree(v: nat, w: nat)
    requires VarUInt(v) <= VarUInt(w)
    ensures v == w
  {
    var suffix := VarUInt(w)[|VarUInt(v)|..];
    assert VarUInt(v) + suffix == VarUInt(w) == VarUInt(w) + [];
    GroupsRoundTrip(v, suffix);
    GroupsRoundTrip(w, []);
  }

  // --------------------------------------------------------------- zigzag

  /** 0, -1, 1, -2, 2, ... */
  function ZigZag(s: int): nat {
    if s >= 0 then 2 * s else -2 * s - 1
  }

  function UnZigZag(u: nat): int {
    if u % 2 == 0 then u / 2 else -(u / 2) - 1
  }

  /** The pair is a bijection between s64 and u64. */
  lemma ZigZagBijective(s: int, u: nat)
    ensures UnZigZag(ZigZag(s)) == s && ZigZag(UnZigZag(u)) == u
    ensures IsS64(s) <==> IsU64(ZigZag(s))
    ensures IsU64(u) <==> IsS64(UnZigZag(u))
  {
  }

  function VarInt(s: int): Bytes {
    VarUInt(ZigZag(s))
  }

  function ReadVarInt(b: Bytes): Parsed<int> {
    match ReadVarUInt(b)
    case Short => Short
    case Parsed(v, rest) => Parsed(UnZigZag(v), rest)
  }

  lemma {:induction false} VarIntRoundTrip(s: int, suffix: Bytes)
    requires IsS64(s)
    ensures ReadVarInt(VarInt(s) + suffix) == Parsed(s, suffix)
  {
    ZigZagBijective(s, ZigZag(s));
    VarUIntRoundTrip(ZigZag(s), suffix);
  }

  // ------------------------------------------- the same mapping on machine words

  /** Shift right by 63 with the sign, as >> does on an s64. */
  function SignWord(x: bv64): bv64 {
    if x & 0x8000_0000_0000_0000 != 0 then 0xFFFF_FFFF_FFFF_FFFF else 0
  }

  function EncodeZigZagWord(x: bv64): bv64 { (x << 1) ^ SignWord(x) }

  function DecodeZigZagWord(u: bv64): bv64 { (u >> 1) ^ (!(u & 1) + 1) }

  lemma NegativeWord(x: bv64)
    requires x & 0x8000_0000_0000_0000 != 0
    ensures ((x << 1) ^ 0xFFFF_FFFF_FFFF_FFFF) & 1 == 1
    ensures (((x << 1) ^ 0xFFFF_FFFF_FFFF_FFFF) >> 1) ^ 0xFFFF_FFFF_FFFF_FFFF == x
  {
  }

  lemma NonNegativeWord(x: bv64)
    requires x & 0x8000_0000_0000_0000 == 0
    ensures (x << 1) & 1 == 0 && (x << 1) >> 1 == x
  {
  }

  lemma OddWord(u: bv64)
    requires u & 1 == 1
    ensures ((u >> 1) ^ 0xFFFF_FFFF_FFFF_FFFF) & 0x8000_0000_0000_0000 != 0
    ensures (((u >> 1) ^ 0xFFFF_FFFF_FFFF_FFFF) << 1) ^ 0xFFFF_FFFF_FFFF_FFFF == u
  {
  }

  lemma EvenWord(u: bv64)
    requires u & 1 == 0
    ensures (u >> 1) & 0x8000_0000_0000_0000 == 0 && (u >> 1) << 1 == u
  {
  }

  lemma LowBit(u: bv64)
    ensures u & 1 == 0 || u & 1 == 1
  {
  }

  /** encode_zigzag and decode_zigzag undo each other on all 64-bit words. */
  lemma DecodeUndoesEncode(x: bv64)
    ensures DecodeZigZagWord(EncodeZigZagWord(x)) == x
  {
    if x & 0x8000_0000_0000_0000 != 0 { NegativeWord(x); } else { NonNegativeWord(x); }
  }

  lemma EncodeUndoesDecode(u: bv64)
    ensures EncodeZigZagWord(DecodeZigZagWord(u)) == u
  {
    LowBit(u);
    if u & 1 == 1 { OddWord(u); } else { EvenWord(u); }
  }

  /** The number the low k bits of a word stand for. */
  function Value(x: bv64, k: nat): nat {
    if k == 0 then 0 else (if x & 1 == 1 then 1 else 0) + 2 * Value(x >> 1, k - 1)
  }

  /** Two's complement. */
  function SignedValue(x: bv64): int {
    if x & 0x8000_0000_0000_0000 == 0 then Value(x, 63) else Value(x, 63) - TWO_63
  }

  function Pow2(k: nat): (p: nat)
    ensures p > 0
  {
    if k == 0 then 1 else 2 * Pow2(k - 1)
  }

  /** The low k bits are all set. */
  predicate Ones(m: bv64, k: nat) { k > 0 ==> m & 1 == 1 && Ones(m >> 1, k - 1) }

  lemma XorBits(x: bv64, z: bv64)
    ensures (x ^ z) >> 1 == (x >> 1) ^ (z >> 1)
    ensures (x ^ z) & 1 == 1 ==> (x & 1 == 1 <==> z & 1 != 1)
  {
  }

  lemma {:induction false} Complement(x: bv64, z: bv64, k: nat)
    requires Ones(x ^ z, k)
    ensures Value(x, k) + Value(z, k) == Pow2(k) - 1
    decreases k
  {
    if k > 0 {
      XorBits(x, z);
      Complement(x >> 1, z >> 1, k - 1);
    }
  }

  lemma OneMore(m: bv64, next: bv64, k: nat, k': nat)
    requires m & 1 == 1 && m >> 1 == next && Ones(next, k) && k' == k + 1
    ensures Ones(m, k')
  {
  }

  lemma TwoBits(m: bv64)
    requires m & 3 == 3
    ensures m & 1 == 1 && (m >> 1) & 1 == 1 && (m >> 1) >> 1 == m >> 2
  {
  }

  lemma {:induction false} TwoOnes(m: bv64, next: bv64, k: nat, k': nat)
    requires m & 3 == 3 && m >> 2 == next && Ones(next, k) && k' == k + 2
    ensures Ones(m, k')
  {
    hide Ones;
    TwoBits(m);
    OneMore(m >> 1, next, k, k + 1);
    OneMore(m, m >> 1, k + 1, k');
  }

  lemma FourBits(m: bv64)
    requires m & 0x0F == 0x0F
    ensures m & 3 == 3 && (m >> 2) & 3 == 3 && (m >> 2) >> 2 == m >> 4
  {
  }

  lemma {:induction false} FourOnes(m: bv64, next: bv64, k: nat, k': nat)
    requires m & 0x0F == 0x0F && m >> 4 == next && Ones(next, k) && k' == k + 4
    ensures Ones(m, k')
  {
    hide Ones;
    FourBits(m);
    TwoOnes(m >> 2, next, k, k + 2);
    TwoOnes(m, m >> 2, k + 2, k');
  }

  lemma EightBits(m: bv64)
    requires m & 0xFF == 0xFF
    ensures m & 0x0F == 0x0F && (m >> 4) & 0x0F == 0x0F && (m >> 4) >> 4 == m >> 8
  {
  }

  lemma {:induction false} EightOnes(m: bv64, next: bv64, k: nat, k': nat)
    requires m & 0xFF == 0xFF && m >> 8 == next && Ones(next, k) && k' == k + 8
    ensures Ones(m, k')
  {
    hide Ones;
    EightBits(m);
    FourOnes(m >> 4, next, k, k + 4);
    FourOnes(m, m >> 4, k + 4, k');
  }

  lemma {:induction false} AllOnes()
    ensures Ones(0xFFFF_FFFF_FFFF_FFFF, 63)
  {
    assert Ones(0x01, 0);
    hide Ones;
    OneMore(0x03, 0x01, 0, 1);
    TwoOnes(0x0F, 0x03, 1, 3);
    FourOnes(0xFF, 0x0F, 3, 7);
    EightOnes(0xFFFF, 0xFF, 7, 15);
    EightOnes(0xFF_FFFF, 0xFFFF, 15, 23);
    EightOnes(0xFFFF_FFFF, 0xFF_FFFF, 23, 31);
    EightOnes(0xFF_FFFF_FFFF, 0xFFFF_FFFF, 31, 39);
    EightOnes(0xFFFF_FFFF_FFFF, 0xFF_FFFF_FFFF, 39, 47);
    EightOnes(0xFF_FFFF_FFFF_FFFF, 0xFFFF_FFFF_FFFF, 47, 55);
    EightOnes(0xFFFF_FFFF_FFFF_FFFF, 0xFF_FFFF_FFFF_FFFF, 55, 63);
  }

  lemma Pow2Of63()
    ensures Pow2(63) == TWO_63
  {
    assert Pow2(8) == 0x100;
    assert Pow2(16) == 0x1_0000;
    assert Pow2(24) == 0x100_0000;
    assert Pow2(32) == 0x1_0000_0000;
    assert Pow2(40) == 0x100_0000_0000;
    assert Pow2(48) == 0x1_0000_0000_0000;
    assert Pow2(56) == 0x100_0000_0000_0000;
  }

  lemma NegativeHalves(x: bv64)
    requires x & 0x8000_0000_0000_0000 != 0
    ensures EncodeZigZagWord(x) & 1 == 1 && x ^ (EncodeZigZagWord(x) >> 1) == 0xFFFF_FFFF_FFFF_FFFF
  {
  }

  lemma {:induction false} EvenWordValue(x: bv64, w: bv64)
    requires w & 1 == 0 && w >> 1 == x
    ensures Value(w, 64) == 2 * Value(x, 63)
  {
  }

  lemma {:induction false} OddWordValue(x: bv64, w: bv64)
    requires w & 1 == 1 && x ^ (w >> 1) == 0xFFFF_FFFF_FFFF_FFFF
    ensures Value(w, 64) == TWO_64 - 1 - 2 * Value(x, 63)
  {
    AllOnes();
    Pow2Of63();
    Complement(x, w >> 1, 63);
    LowBitSet(w);
  }

  lemma {:induction false} LowBitSet(w: bv64)
    requires w & 1 == 1
    ensures Value(w, 64) == 1 + 2 * Value(w >> 1, 63)
  {
  }

  lemma WordOfNonNegative(x: bv64)
    requires x & 0x8000_0000_0000_0000 == 0
    ensures EncodeZigZagWord(x) & 1 == 0 && EncodeZigZagWord(x) >> 1 == x
  {
  }

  /** The bit operations of encode_zigzag are the mapping, on every word. */
  lemma {:induction false} EncodeWordIsZigZag(x: bv64)
    ensures Value(EncodeZigZagWord(x), 64) == ZigZag(SignedValue(x))
  {
    hide EncodeZigZagWord;
    var w := EncodeZigZagWord(x);
    if x & 0x8000_0000_0000_0000 == 0 {
      WordOfNonNegative(x);
      EvenWordValue(x, w);
    } else {
      NegativeHalves(x);
      OddWordValue(x, w);
      ValueBound(x, 63);
      Pow2Of63();
    }
  }

  lemma {:induction false} ValueBound(x: bv64, k: nat)
    ensures Value(x, k) < Pow2(k)
  {
    if k > 0 { ValueBound(x >> 1, k - 1); }
  }

  /** Those of decode_zigzag are its inverse. */
  lemma {:induction false} DecodeWordIsUnZigZag(u: bv64)
    ensures SignedValue(DecodeZigZagWord(u)) == UnZigZag(Value(u, 64))
  {
    hide Value, DecodeZigZagWord, EncodeZigZagWord, SignedValue;
    EncodeUndoesDecode(u);
    EncodeWordIsZigZag(DecodeZigZagWord(u));
    ZigZagBijective(SignedValue(DecodeZigZagWord(u)), 0);
  }
}
