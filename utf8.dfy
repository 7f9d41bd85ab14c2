/**
 * UTF-8 as RFC 3629 defines it: the encoding Rust's `String::as_bytes` exposes
 * and the validation `String::from_utf8` performs. A Dafny `char` is a Unicode
 * scalar value, exactly the set of values RFC 3629 encodes.
 */
module Utf8 {
  import opened Wrappers
  import opened Binary

  predicate IsCont(b: byte) { 0x80 <= b <= 0xBF }

  /** The one to four bytes RFC 3629 (section 3) assigns to a scalar value. */
  function EncodeChar(c: char): (r: seq<byte>)
    ensures 1 <= |r| <= 4
  {
    var n := c as int;
    if n < 0x80 then [n as byte]
    else if n < 0x800 then [(0xC0 + n / 64) as byte, (0x80 + n % 64) as byte]
    else if n < 0x1_0000 then
      [(0xE0 + n / 4096) as byte, (0x80 + (n / 64) % 64) as byte, (0x80 + n % 64) as byte]
    else
      [(0xF0 + n / 262144) as byte, (0x80 + (n / 4096) % 64) as byte,
       (0x80 + (n / 64) % 64) as byte, (0x80 + n % 64) as byte]
  }

  /** `s.as_bytes()` */
  function Encode(s: string): seq<byte>
  {
    if s == [] then [] else EncodeChar(s[0]) + Encode(s[1..])
  }

  /**
   * The first character of `b` and the number of bytes it takes, following the
   * table of well-formed byte sequences in section 4 of RFC 3629 (no overlong
   * forms, no surrogates, nothing above U+10FFFF).
   */
  function DecodeChar(b: seq<byte>): (r: Option<(char, nat)>)
    ensures r.Some? ==> 1 <= r.value.1 <= |b|
  {
    if |b| == 0 then None
    else if b[0] < 0x80 then Some((b[0] as char, 1))
    else if 0xC2 <= b[0] <= 0xDF then
      if |b| >= 2 && IsCont(b[1]) then
        Some((((b[0] as int - 0xC0) * 64 + (b[1] as int - 0x80)) as char, 2))
      else None
    else if 0xE0 <= b[0] <= 0xEF then
      var lo := if b[0] == 0xE0 then 0xA0 else 0x80;
      var hi := if b[0] == 0xED then 0x9F else 0xBF;
      if |b| >= 3 && lo <= b[1] <= hi && IsCont(b[2]) then
        Some((((b[0] as int - 0xE0) * 4096 + (b[1] as int - 0x80) * 64 + (b[2] as int - 0x80)) as char, 3))
      else None
    else if 0xF0 <= b[0] <= 0xF4 then
      var lo := if b[0] == 0xF0 then 0x90 else 0x80;
      var hi := if b[0] == 0xF4 then 0x8F else 0xBF;
      if |b| >= 4 && lo <= b[1] <= hi && IsCont(b[2]) && IsCont(b[3]) then
        Some((((b[0] as int - 0xF0) * 262144 + (b[1] as int - 0x80) * 4096 + (b[2] as int - 0x80) * 64 + (b[3] as int - 0x80)) as char, 4))
      else None
    else None
  }

  /** `String::from_utf8`: the decoded string, or None when `b` is not well-formed UTF-8. */
  function Decode(b: seq<byte>): Option<string>
    decreases |b|
  {
    if b == [] then Some([])
    else match DecodeChar(b)
      case None => None
      case Some((c, k)) =>
        match Decode(b[k..])
        case None => None
        case Some(rest) => Some([c] + rest)
  }

  lemma DivMod64(q: int, r: int)
    requires 0 <= r < 64
    ensures (q * 64 + r) / 64 == q && (q * 64 + r) % 64 == r
  {
  }

  lemma Split64(n: nat)
    ensures n == (n / 64) * 64 + n % 64 && 0 <= n % 64 < 64
    ensures n / 4096 == (n / 64) / 64 && n / 262144 == (n / 4096) / 64
  {
  }

  /** A scalar value as three base-64 digits, the last two of six bits each. */
  lemma SplitDigits3(n: nat)
    ensures n == (n / 4096) * 4096 + ((n / 64) % 64) * 64 + n % 64
    ensures n / 64 == (n / 4096) * 64 + (n / 64) % 64
    ensures 0 <= (n / 64) % 64 < 64 && 0 <= n % 64 < 64
  {
    Split64(n);
    Split64(n / 64);
  }

  /** A scalar value as four base-64 digits, the last three of six bits each. */
  lemma SplitDigits4(n: nat)
    ensures n == (n / 262144) * 262144 + ((n / 4096) % 64) * 4096 + ((n / 64) % 64) * 64 + n % 64
    ensures n / 4096 == (n / 262144) * 64 + (n / 4096) % 64
    ensures 0 <= (n / 4096) % 64 < 64 && 0 <= (n / 64) % 64 < 64 && 0 <= n % 64 < 64
  {
    Split64(n);
    Split64(n / 64);
    Split64(n / 4096);
  }

  /** Three base-64 digits, put together, come apart again. */
  lemma JoinDigits3(x0: nat, x1: nat, x2: nat)
    requires x1 < 64 && x2 < 64
    ensures var n := x0 * 4096 + x1 * 64 + x2; n / 4096 == x0 && (n / 64) % 64 == x1 && n % 64 == x2
  {
    var n := x0 * 4096 + x1 * 64 + x2;
    DivMod64(x0 * 64 + x1, x2);
    DivMod64(x0, x1);
    Split64(n);
  }

  /** Four base-64 digits, put together, come apart again. */
  lemma JoinDigits4(x0: nat, x1: nat, x2: nat, x3: nat)
    requires x1 < 64 && x2 < 64 && x3 < 64
    ensures var n := x0 * 262144 + x1 * 4096 + x2 * 64 + x3;
            n / 262144 == x0 && (n / 4096) % 64 == x1 && (n / 64) % 64 == x2 && n % 64 == x3
  {
    var n := x0 * 262144 + x1 * 4096 + x2 * 64 + x3;
    var q1 := x0 * 64 + x1;
    var q2 := q1 * 64 + x2;
    assert n == q2 * 64 + x3;
    DivMod64(q2, x3);
    DivMod64(q1, x2);
    DivMod64(x0, x1);
    Split64(n);
  }

  /** Decoding the encoding of a character gives the character back, whatever follows it. */
  lemma DecodeEncodeChar(c: char, rest: seq<byte>)
    ensures DecodeChar(EncodeChar(c) + rest) == Some((c, |EncodeChar(c)|))
  {
    var n := c as int;
    if 0x80 <= n < 0x800 {
      Split64(n);
      DecodeTwo(c, n / 64, n % 64, rest);
    } else if 0x800 <= n < 0x1_0000 {
      SplitDigits3(n);
      DecodeThree(c, n / 4096, (n / 64) % 64, n % 64, rest);
    } else if 0x1_0000 <= n {
      SplitDigits4(n);
      DecodeFour(c, n / 262144, (n / 4096) % 64, (n / 64) % 64, n % 64, rest);
    }
  }

  lemma DecodeTwo(c: char, x0: nat, x1: nat, rest: seq<byte>)
    requires x1 < 64 && c as int == x0 * 64 + x1 && 0x80 <= c as int < 0x800
    ensures DecodeChar(EncodeChar(c) + rest) == Some((c, 2))
  {
    EncodeTwo(c, x0, x1);
    var b := EncodeChar(c) + rest;
    assert b[0] as int == 0xC0 + x0 && b[1] as int == 0x80 + x1;
  }

  lemma DecodeThree(c: char, x0: nat, x1: nat, x2: nat, rest: seq<byte>)
    requires x1 < 64 && x2 < 64 && c as int == x0 * 4096 + x1 * 64 + x2 && 0x800 <= c as int < 0x1_0000
    ensures DecodeChar(EncodeChar(c) + rest) == Some((c, 3))
  {
    EncodeThree(c, x0, x1, x2);
    var b := EncodeChar(c) + rest;
    assert b[0] as int == 0xE0 + x0 && b[1] as int == 0x80 + x1 && b[2] as int == 0x80 + x2;
  }

  lemma DecodeFour(c: char, x0: nat, x1: nat, x2: nat, x3: nat, rest: seq<byte>)
    requires x1 < 64 && x2 < 64 && x3 < 64 && c as int == x0 * 262144 + x1 * 4096 + x2 * 64 + x3 && 0x1_0000 <= c as int
    ensures DecodeChar(EncodeChar(c) + rest) == Some((c, 4))
  {
    EncodeFour(c, x0, x1, x2, x3);
    var b := EncodeChar(c) + rest;
    assert b[0] as int == 0xF0 + x0 && b[1] as int == 0x80 + x1 && b[2] as int == 0x80 + x2 && b[3] as int == 0x80 + x3;
  }

  /** A successfully decoded character was encoded by exactly the bytes it consumed. */
  lemma EncodeDecodeChar(b: seq<byte>)
    requires DecodeChar(b).Some?
    ensures var (c, k) := DecodeChar(b).value; EncodeChar(c) == b[..k]
  {
    var (c, k) := DecodeChar(b).value;
    if b[0] < 0x80 {
    } else if k == 2 {
      EncodeTwo(c, b[0] as int - 0xC0, b[1] as int - 0x80);
      assert b[..2] == [b[0], b[1]];
    } else if k == 3 {
      EncodeThree(c, b[0] as int - 0xE0, b[1] as int - 0x80, b[2] as int - 0x80);
      assert b[..3] == [b[0], b[1], b[2]];
    } else {
      EncodeFour(c, b[0] as int - 0xF0, b[1] as int - 0x80, b[2] as int - 0x80, b[3] as int - 0x80);
      assert b[..4] == [b[0], b[1], b[2], b[3]];
    }
  }

  lemma EncodeTwo(c: char, x0: nat, x1: nat)
    requires x1 < 64 && c as int == x0 * 64 + x1 && 0x80 <= c as int < 0x800
    ensures EncodeChar(c) == [(0xC0 + x0) as byte, (0x80 + x1) as byte]
  {
    DivMod64(x0, x1);
  }

  lemma EncodeThree(c: char, x0: nat, x1: nat, x2: nat)
    requires x1 < 64 && x2 < 64 && c as int == x0 * 4096 + x1 * 64 + x2 && 0x800 <= c as int < 0x1_0000
    ensures EncodeChar(c) == [(0xE0 + x0) as byte, (0x80 + x1) as byte, (0x80 + x2) as byte]
  {
    JoinDigits3(x0, x1, x2);
  }

  lemma EncodeFour(c: char, x0: nat, x1: nat, x2: nat, x3: nat)
    requires x1 < 64 && x2 < 64 && x3 < 64 && c as int == x0 * 262144 + x1 * 4096 + x2 * 64 + x3 && 0x1_0000 <= c as int
    ensures EncodeChar(c) == [(0xF0 + x0) as byte, (0x80 + x1) as byte, (0x80 + x2) as byte, (0x80 + x3) as byte]
  {
    JoinDigits4(x0, x1, x2, x3);
  }

  lemma {:induction false} EncodeConcat(s: string, t: string)
    ensures Encode(s + t) == Encode(s) + Encode(t)
  {
    if s == [] {
      assert s + t == t;
    } else {
      assert (s + t)[1..] == s[1..] + t;
      EncodeConcat(s[1..], t);
    }
  }

  /** Every string survives `as_bytes` followed by `from_utf8`. */
  lemma {:induction false} DecodeEncode(s: string)
    ensures Decode(Encode(s)) == Some(s)
  {
    if s != [] {
      var e := EncodeChar(s[0]);
      DecodeEncodeChar(s[0], Encode(s[1..]));
      var b := Encode(s);
      assert b == e + Encode(s[1..]);
      assert b[|e|..] == Encode(s[1..]);
      DecodeEncode(s[1..]);
      assert [s[0]] + s[1..] == s;
    }
  }

  /** When `from_utf8` accepts bytes, the string's encoding is exactly those bytes. */
  lemma {:induction false} EncodeDecode(b: seq<byte>)
    requires Decode(b).Some?
    ensures Encode(Decode(b).value) == b
    decreases |b|
  {
    if b != [] {
      var c, k := FirstChar(b);
      var t := Decode(b[k..]).value;
      EncodeDecode(b[k..]);
      EncodeCons(c, t);
      assert b == b[..k] + b[k..];
    }
  }

  /** Well-formed bytes start with a character encoded by their first `k` bytes, and the rest is well-formed. */
  lemma FirstChar(b: seq<byte>) returns (c: char, k: nat)
    requires b != [] && Decode(b).Some?
    ensures 1 <= k <= |b| && Decode(b[k..]).Some?
    ensures Decode(b).value == [c] + Decode(b[k..]).value && EncodeChar(c) == b[..k]
  {
    c, k := DecodeChar(b).value.0, DecodeChar(b).value.1;
    EncodeDecodeChar(b);
  }

  lemma EncodeCons(c: char, t: string)
    ensures Encode([c] + t) == EncodeChar(c) + Encode(t)
  {
    assert ([c] + t)[1..] == t;
  }

  /** An encoding is never shorter than the string: each character takes one to four bytes. */
  lemma {:induction false} EncodeLength(s: string)
    ensures |s| <= |Encode(s)| <= 4 * |s|
  {
    if s != [] {
      EncodeLength(s[1..]);
    }
  }

  /** ASCII characters are encoded as themselves, one byte each. */
  lemma {:induction false} EncodeAscii(s: string)
    requires forall i :: 0 <= i < |s| ==> s[i] as int < 0x80
    ensures |Encode(s)| == |s|
    ensures forall i :: 0 <= i < |s| ==> Encode(s)[i] == s[i] as int
  {
    if s != [] {
      EncodeAscii(s[1..]);
    }
  }
}
