/**
  UTF-8 as defined by RFC 3629: Python's `str.encode('utf-8')` and the strict
  `bytes.decode('utf-8')`, used by the NumPy archive format to store frames.
  Characters are Unicode scalar values, so every string encodes.
*/
module Utf8 {
  import opened Wrappers
  import opened Sampling

  type byte = x: int | 0 <= x < 256

  predicate IsContinuation(b: byte)
  {
    0x80 <= b < 0xC0
  }

  /** The one- to four-byte form of a scalar value (section 3 of RFC 3629). */
  function EncodeChar(c: char): (b: seq<byte>)
    ensures 1 <= |b| <= 4
    ensures (b[|b| - 1] == 0) <==> c == '\0'
    ensures |b| > 1 ==> forall i :: 1 <= i < |b| ==> IsContinuation(b[i])
  {
    var n := c as int;
    if n < 0x80 then [n]
    else if n < 0x800 then [0xC0 + n / 64, 0x80 + n % 64]
    else if n < 0x10000 then [0xE0 + n / 4096, 0x80 + (n / 64) % 64, 0x80 + n % 64]
    else [0xF0 + n / 262144, 0x80 + (n / 4096) % 64, 0x80 + (n / 64) % 64, 0x80 + n % 64]
  }

  function Encode(s: string): (b: seq<byte>)
    ensures |b| >= |s|
    ensures s == [] <==> b == []
  {
    if s == [] then [] else EncodeChar(s[0]) + Encode(s[1..])
  }

  /** A scalar value: not a surrogate, at most U+10FFFF. */
  predicate IsScalar(n: int)
  {
    0 <= n < 0xD800 || 0xE000 <= n <= 0x10FFFF
  }

  /**
    The first character of `b` and the number of bytes it takes, or None when
    `b` does not start with a well-formed sequence: a stray continuation
    byte, a truncated sequence, an overlong form, a surrogate or a value past
    U+10FFFF.
  */
  function DecodeChar(b: seq<byte>): (r: Option<(char, nat)>)
    ensures r.Some? ==> 1 <= r.value.1 <= |b| && r.value.1 <= 4
  {
    if |b| == 0 then None
    else if b[0] < 0x80 then Some((b[0] as char, 1))
    else if 0xC2 <= b[0] < 0xE0 && |b| >= 2 && IsContinuation(b[1]) then
      Some((((b[0] as int - 0xC0) * 64 + (b[1] as int - 0x80)) as char, 2))
    else if 0xE0 <= b[0] < 0xF0 && |b| >= 3 && IsContinuation(b[1]) && IsContinuation(b[2]) then
      var n := (b[0] as int - 0xE0) * 4096 + (b[1] as int - 0x80) * 64 + (b[2] as int - 0x80);
      if n >= 0x800 && IsScalar(n) then Some((n as char, 3)) else None
    else if 0xF0 <= b[0] < 0xF5 && |b| >= 4 && IsContinuation(b[1]) && IsContinuation(b[2]) && IsContinuation(b[3]) then
      var n := (b[0] as int - 0xF0) * 262144 + (b[1] as int - 0x80) * 4096 + (b[2] as int - 0x80) * 64 + (b[3] as int - 0x80);
      if 0x10000 <= n <= 0x10FFFF then Some((n as char, 4)) else None
    else None
  }

  /** Strict decoding: None as soon as any sequence is malformed. */
  function Decode(b: seq<byte>): (r: Option<string>)
    decreases |b|
  {
    if b == [] then Some([])
    else match DecodeChar(b)
      case None => None
      case Some((c, k)) =>
        match Decode(b[k..])
        case None => None
        case Some(rest) => Some([c] + rest)
  }

  /** Reading back the 6-bit groups of a two-, three- or four-byte form. */
  lemma Groups2(a: int, b: int)
    requires 0 <= a && 0 <= b < 64
    ensures (a * 64 + b) / 64 == a && (a * 64 + b) % 64 == b
  {
    ModUnique(a * 64 + b, a, b, 64);
  }

  lemma Groups3(a: int, b: int, c: int)
    requires 0 <= a && 0 <= b < 64 && 0 <= c < 64
    ensures var n := a * 4096 + b * 64 + c; n / 4096 == a && (n / 64) % 64 == b && n % 64 == c
  {
    var n := a * 4096 + b * 64 + c;
    ModUnique(n, a, b * 64 + c, 4096);
    ModUnique(n, a * 64 + b, c, 64);
    Groups2(a, b);
  }

  lemma Groups4(a: int, b: int, c: int, d: int)
    requires 0 <= a && 0 <= b < 64 && 0 <= c < 64 && 0 <= d < 64
    ensures var n := a * 262144 + b * 4096 + c * 64 + d;
      n / 262144 == a && (n / 4096) % 64 == b && (n / 64) % 64 == c && n % 64 == d
  {
    var n := a * 262144 + b * 4096 + c * 64 + d;
    ModUnique(n, a, b * 4096 + c * 64 + d, 262144);
    ModUnique(n, a * 64 + b, c * 64 + d, 4096);
    Groups2(a, b);
    ModUnique(n, a * 4096 + b * 64 + c, d, 64);
    ModUnique(a * 4096 + b * 64 + c, a * 64 + b, c, 64);
  }

  lemma Split2(n: int)
    requires 0x80 <= n < 0x800
    ensures 2 <= n / 64 < 32 && n / 64 * 64 + n % 64 == n
  {
  }

  lemma Split3(n: int)
    requires 0x800 <= n < 0x10000
    ensures n / 4096 < 16 && n / 4096 * 4096 + (n / 64) % 64 * 64 + n % 64 == n
  {
  }

  lemma Split4(n: int)
    requires 0x10000 <= n < 0x110000
    ensures n / 262144 < 5 && n / 262144 * 262144 + (n / 4096) % 64 * 4096 + (n / 64) % 64 * 64 + n % 64 == n
  {
  }

  /** Every encoded character decodes back, whatever follows it. */
  lemma DecodeEncodeChar(c: char, rest: seq<byte>)
    ensures DecodeChar(EncodeChar(c) + rest) == Some((c, |EncodeChar(c)|))
  {
    var n := c as int;
    var e := EncodeChar(c);
    var b := e + rest;
    if n < 0x80 {
      assert b[0] == n;
    } else if n < 0x800 {
      Split2(n);
      assert b[0] == e[0] == 0xC0 + n / 64 && b[1] == e[1] == 0x80 + n % 64;
      assert (b[0] as int - 0xC0) * 64 + (b[1] as int - 0x80) == n;
    } else if n < 0x10000 {
      Split3(n);
      assert b[0] == e[0] && b[1] == e[1] && b[2] == e[2];
      assert (b[0] as int - 0xE0) * 4096 + (b[1] as int - 0x80) * 64 + (b[2] as int - 0x80) == n;
    } else {
      Split4(n);
      assert b[0] == e[0] && b[1] == e[1] && b[2] == e[2] && b[3] == e[3];
      assert (b[0] as int - 0xF0) * 262144 + (b[1] as int - 0x80) * 4096 + (b[2] as int - 0x80) * 64 + (b[3] as int - 0x80) == n;
    }
  }

  /** Decoding undoes encoding. */
  lemma {:induction false} DecodeEncode(s: string)
    ensures Decode(Encode(s)) == Some(s)
  {
    if s != [] {
      var e := EncodeChar(s[0]);
      DecodeEncodeChar(s[0], Encode(s[1..]));
      assert (e + Encode(s[1..]))[|e|..] == Encode(s[1..]);
      DecodeEncode(s[1..]);
      assert [s[0]] + s[1..] == s;
    }
  }

  /** A well-formed sequence is the encoding of the character it decodes to. */
  lemma EncodeDecodeChar(b: seq<byte>)
    requires DecodeChar(b).Some?
    ensures EncodeChar(DecodeChar(b).value.0) == b[..DecodeChar(b).value.1]
  {
    var (c, k) := DecodeChar(b).value;
    var n := c as int;
    if k == 2 {
      Groups2(b[0] as int - 0xC0, b[1] as int - 0x80);
    } else if k == 3 {
      Groups3(b[0] as int - 0xE0, b[1] as int - 0x80, b[2] as int - 0x80);
    } else if k == 4 {
      Groups4(b[0] as int - 0xF0, b[1] as int - 0x80, b[2] as int - 0x80, b[3] as int - 0x80);
    }
  }

  /** Encoding undoes decoding: only the canonical encoding of a string decodes to it. */
  lemma {:induction false} EncodeDecode(b: seq<byte>)
    requires Decode(b).Some?
    ensures Encode(Decode(b).value) == b
    decreases |b|
  {
    if b != [] {
      var (c, k) := DecodeChar(b).value;
      DecodeCons(b);
      EncodeDecodeChar(b);
      EncodeDecode(b[k..]);
      EncodeCons(b, k, c, Decode(b[k..]).value);
    }
  }

  /** The bytes of one character followed by the bytes of a string are the encoding of the two together. */
  lemma EncodeCons(b: seq<byte>, k: nat, c: char, rest: string)
    requires k <= |b| && EncodeChar(c) == b[..k] && Encode(rest) == b[k..]
    ensures Encode([c] + rest) == b
  {
    var s := [c] + rest;
    assert s[0] == c && s[1..] == rest;
    assert b[..k] + b[k..] == b;
  }

  /** A decodable sequence is its first character's bytes followed by a decodable rest. */
  lemma DecodeCons(b: seq<byte>)
    requires b != [] && Decode(b).Some?
    ensures DecodeChar(b).Some?
    ensures var (c, k) := DecodeChar(b).value;
      Decode(b[k..]).Some? && Decode(b).value == [c] + Decode(b[k..]).value
  {
  }

  /** NumPy's fixed-width byte strings drop trailing zero bytes when read back. */
  function StripTrailingNul(b: seq<byte>): (r: seq<byte>)
    ensures |r| <= |b| && r == b[..|r|]
    ensures r == [] || r[|r| - 1] != 0
    ensures forall i :: |r| <= i < |b| ==> b[i] == 0
  {
    if b == [] || b[|b| - 1] != 0 then b else StripTrailingNul(b[..|b| - 1])
  }

  lemma {:induction false} EncodeLast(s: string)
    requires s != []
    ensures var e := Encode(s); e != [] && (e[|e| - 1] == 0 <==> s[|s| - 1] == '\0')
  {
    var e := Encode(s);
    var head := EncodeChar(s[0]);
    assert e == head + Encode(s[1..]);
    if |s| > 1 {
      EncodeLast(s[1..]);
      var tail := Encode(s[1..]);
      assert e[|e| - 1] == tail[|tail| - 1];
      assert s[1..][|s[1..]| - 1] == s[|s| - 1];
    } else {
      assert s[1..] == [];
      assert e == head;
    }
  }

  /**
    A frame survives the archive's encode, store, strip and decode exactly
    when it does not end in U+0000.
  */
  lemma ArchivedFrameRoundTrip(s: string)
    ensures Decode(StripTrailingNul(Encode(s))) == Some(s) <==> (s == [] || s[|s| - 1] != '\0')
  {
    var e := Encode(s);
    if s == [] || s[|s| - 1] != '\0' {
      if s != [] {
        EncodeLast(s);
      }
      assert StripTrailingNul(e) == e;
      DecodeEncode(s);
    } else {
      EncodeLast(s);
      var r := StripTrailingNul(e);
      if Decode(r) == Some(s) {
        EncodeDecode(r);
      }
    }
  }
}
