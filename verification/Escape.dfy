/**
  Escape and Unescape of CORE/UTIL/stringutil.cpp, on strings of bytes.
 */
module Escape {
  import opened Basics

  const BACKSLASH: u8 := 92
  const QUOTE: u8 := 34

  predicate IsPrint(c: u8) { 32 <= c <= 126 }

  predicate IsDigit(c: u8) { 48 <= c <= 57 }

  /** The letter that stands for a character after a backslash, or 0. */
  function Letter(c: u8): u8 {
    if c == 10 then 110 else if c == 13 then 114 else if c == 9 then 116
    else if c == QUOTE then QUOTE else if c == BACKSLASH then BACKSLASH else 0
  }

  /** Three decimal digits. */
  function Decimal(c: u8): Bytes {
    [48 + c / 100, 48 + c / 10 % 10, 48 + c % 10]
  }

  function EscapedChar(c: u8): (r: Bytes)
    ensures 1 <= |r| <= 4
    ensures forall i :: 0 <= i < |r| ==> IsPrint(r[i])
  {
    if Letter(c) != 0 then [BACKSLASH, Letter(c)]
    else if IsPrint(c) then [c]
    else [BACKSLASH] + Decimal(c)
  }

  function Escaped(s: Bytes): Bytes {
    if s == [] then [] else EscapedChar(s[0]) + Escaped(s[1..])
  }

  /** The switch over one character. */
  method EscapeChar(c: u8) returns (r: Bytes)
    ensures r == EscapedChar(c)
  {
    if c == 10 {
      r := [BACKSLASH, 110];
    } else if c == 13 {
      r := [BACKSLASH, 114];
    } else if c == 9 {
      r := [BACKSLASH, 116];
    } else if c == QUOTE {
      r := [BACKSLASH, QUOTE];
    } else if c == BACKSLASH {
      r := [BACKSLASH, BACKSLASH];
    } else if IsPrint(c) {
      r := [c];
    } else {
      r := [BACKSLASH] + Decimal(c);
    }
  }

  method Escape(s: Bytes) returns (r: Bytes)
    ensures r == Escaped(s)
  {
    r := [];
    for i := 0 to |s|
      invariant Escaped(s) == r + Escaped(s[i..])
    {
      assert s[i..][0] == s[i] && s[i..][1..] == s[i + 1..];
      var e := EscapeChar(s[i]);
      Assoc(r, e, Escaped(s[i + 1..]));
      r := r + e;
    }
    assert r + [] == r;
  }

  // -------------------------------------------------------------- unescaping

  /** Three digits, not running past the end. */
  predicate ThreeDigits(t: Bytes) { |t| >= 3 && IsDigit(t[0]) && IsDigit(t[1]) && IsDigit(t[2]) }

  /** The character three digits stand for, cut to eight bits. */
  function Code(t: Bytes): u8
    requires ThreeDigits(t)
  {
    (((t[0] as int - 48) * 100 + (t[1] as int - 48) * 10 + (t[2] as int - 48)) % 256) as u8
  }

  /** What the characters after a backslash stand for, and how many they are. */
  function Meaning(t: Bytes): (r: (Bytes, nat))
    requires t != []
    ensures 1 <= r.1 <= |t|
  {
    if t[0] == 110 then ([10], 1)
    else if t[0] == 114 then ([13], 1)
    else if t[0] == 116 then ([9], 1)
    else if t[0] == QUOTE then ([QUOTE], 1)
    else if t[0] == BACKSLASH then ([BACKSLASH], 1)
    else if ThreeDigits(t) then ([Code(t)], 3)
    else ([BACKSLASH, t[0]], 1)
  }

  /** A lone backslash at the end is dropped. */
  function Unescaped(t: Bytes): Bytes
    decreases |t|
  {
    if t == [] then []
    else if t[0] != BACKSLASH then [t[0]] + Unescaped(t[1..])
    else if |t| == 1 then []
    else var m := Meaning(t[1..]); m.0 + Unescaped(t[1 + m.1..])
  }

  /** The switch over the character after a backslash; last is the index of the last character used. */
  method UnescapeChar(t: Bytes, i: nat) returns (r: Bytes, last: nat)
    requires i < |t|
    ensures last < |t| && (r, last + 1 - i) == Meaning(t[i..])
  {
    var c := t[i];
    last := i;
    if c == 110 {
      r := [10];
    } else if c == 114 {
      r := [13];
    } else if c == 116 {
      r := [9];
    } else if c == QUOTE {
      r := [QUOTE];
    } else if c == BACKSLASH {
      r := [BACKSLASH];
    } else if ThreeDigits(t[i..]) {
      var d1, d2, d3 := t[i] as int - 48, t[i + 1] as int - 48, t[i + 2] as int - 48;
      last := i + 2;
      r := [((d1 * 100 + d2 * 10 + d3) % 256) as u8];
    } else {
      r := [BACKSLASH, c];
    }
  }

  method Unescape(t: Bytes) returns (r: Bytes)
    ensures r == Unescaped(t)
  {
    r := [];
    var i := 0;
    while i < |t|
      invariant 0 <= i <= |t| && Unescaped(t) == r + Unescaped(t[i..])
    {
      ghost var rest := t[i..];
      var piece := [t[i]];
      if t[i] == BACKSLASH {
        i := i + 1;
        if i == |t| { break; }
        assert rest[1..] == t[i..];
        ghost var at := i;
        piece, i := UnescapeChar(t, i);
        assert rest[1 + (i + 1 - at)..] == t[i + 1..];
      } else {
        assert rest[1..] == t[i + 1..];
      }
      i := i + 1;
      assert Unescaped(rest) == piece + Unescaped(t[i..]);
      Assoc(r, piece, Unescaped(t[i..]));
      r := r + piece;
    }
    assert r + [] == r;
  }

  // -------------------------------------------------------------- properties

  lemma DecimalCode(c: u8)
    ensures ThreeDigits(Decimal(c)) && Code(Decimal(c)) == c
  {
    var n := c as int;
    var a, b, d := n / 100, n / 10 % 10, n % 10;
    assert a <= 2 && n == a * 100 + b * 10 + d;
  }

  /** One escaped character is read back and nothing after it is touched. */
  lemma {:induction false} CharBack(c: u8, rest: Bytes)
    ensures Unescaped(EscapedChar(c) + rest) == [c] + Unescaped(rest)
  {
    var t := EscapedChar(c) + rest;
    if Letter(c) != 0 {
      assert t[1..] == [Letter(c)] + rest && t[2..] == rest;
    } else if IsPrint(c) {
      assert t[1..] == rest;
    } else {
      DecimalCode(c);
      assert t[1..] == Decimal(c) + rest && t[4..] == rest;
      assert Code(t[1..]) == Code(Decimal(c));
    }
  }

  /** Unescaping undoes escaping on every byte string. */
  lemma {:induction false} UnescapeUndoesEscape(s: Bytes)
    ensures Unescaped(Escaped(s)) == s
    decreases |s|
  {
    if s != [] {
      CharBack(s[0], Escaped(s[1..]));
      UnescapeUndoesEscape(s[1..]);
    }
  }

  /** The escaped form is printable and between one and four times as long. */
  lemma {:induction false} EscapedIsPrintable(s: Bytes)
    ensures forall i :: 0 <= i < |Escaped(s)| ==> IsPrint(Escaped(s)[i])
    ensures |s| <= |Escaped(s)| <= 4 * |s|
    decreases |s|
  {
    if s != [] { EscapedIsPrintable(s[1..]); }
  }

  /** Text is escaped piece by piece. */
  lemma {:induction false} EscapedConcat(s: Bytes, t: Bytes)
    ensures Escaped(s + t) == Escaped(s) + Escaped(t)
    decreases |s|
  {
    if s == [] {
      assert s + t == t;
    } else {
      assert (s + t)[1..] == s[1..] + t;
      EscapedConcat(s[1..], t);
      Assoc(EscapedChar(s[0]), Escaped(s[1..]), Escaped(t));
    }
  }

  /**
    What a character looks like in escaped text: newline, carriage return, tab,
    quote and backslash have letters, other printable ones stand for themselves,
    the rest have three decimal digits.
   */
  lemma {:induction false} LooksLike(c: u8)
    ensures c == 10 ==> Escaped([c]) == [92, 110]
    ensures c == 13 ==> Escaped([c]) == [92, 114]
    ensures c == 9 ==> Escaped([c]) == [92, 116]
    ensures c == 34 || c == 92 ==> Escaped([c]) == [92, c]
    ensures 32 <= c <= 126 && c != 34 && c != 92 ==> Escaped([c]) == [c]
    ensures (c < 32 || c > 126) && c !in {9, 10, 13} ==>
      var r := Escaped([c]);
      && |r| == 4 && r[0] == 92 && (forall i :: 1 <= i < 4 ==> 48 <= r[i] <= 57)
      && 100 * (r[1] as int - 48) + 10 * (r[2] as int - 48) + (r[3] as int - 48) == c as int
  {
    assert Escaped([c]) == EscapedChar(c) by { assert [c][1..] == [] && EscapedChar(c) + [] == EscapedChar(c); }
    if (c < 32 || c > 126) && c !in {9, 10, 13} {
      var n := c as int;
      var a, b, d := c / 100, c / 10 % 10, c % 10;
      assert 100 * a as int + 10 * b as int + d as int == n;
      assert EscapedChar(c) == [92, 48 + a, 48 + b, 48 + d];
    }
  }

  /**
    After a backslash three digits give a character, modulo 256; anything else
    that is no letter of an escape stays, with its backslash.
   */
  lemma {:induction false} ReadAfterBackslash(c: u8, d: u8, e: u8, rest: Bytes)
    ensures 48 <= c <= 57 && 48 <= d <= 57 && 48 <= e <= 57 ==>
      Unescaped([92, c, d, e] + rest) ==
        [((100 * c as int + 10 * d as int + e as int - 5328) % 256) as u8] + Unescaped(rest)
    ensures c !in {110, 114, 116, 34, 92} && !(48 <= c <= 57) ==>
      Unescaped([92, c] + rest) == [92, c] + Unescaped(rest)
    ensures Unescaped([92]) == []
  {
    var t, u := [92, c, d, e] + rest, [92, c] + rest;
    assert t[1..] == [c, d, e] + rest && t[4..] == rest && u[1..] == [c] + rest && u[2..] == rest;
  }
}
