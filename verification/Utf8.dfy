/** UTF-8 as in RFC 3629 section 3, over texts of Unicode scalar values. */
module Utf8 {
  import opened Optional

  newtype byte = n: int | 0 <= n < 256

  // ---------------------------------------------------------------------------------------
  // Encoding
  // ---------------------------------------------------------------------------------------

  function EncodeChar(c: char): (r: seq<byte>)
    ensures 1 <= |r| <= 4
  {
    var n := c as int;
    if n < 0x80 then [n as byte]
    else if n < 0x800 then [(0xc0 + n / 64) as byte, (0x80 + n % 64) as byte]
    else if n < 0x10000 then [(0xe0 + n / 4096) as byte, (0x80 + n / 64 % 64) as byte, (0x80 + n % 64) as byte]
    else [(0xf0 + n / 262144) as byte, (0x80 + n / 4096 % 64) as byte,
          (0x80 + n / 64 % 64) as byte, (0x80 + n % 64) as byte]
  }

  function Encode(s: string): seq<byte> {
    if s == "" then [] else EncodeChar(s[0]) + Encode(s[1..])
  }

  // ---------------------------------------------------------------------------------------
  // Decoding
  // ---------------------------------------------------------------------------------------

  /** A byte of the form 10xxxxxx. */
  predicate Continuation(b: byte) {
    0x80 <= b < 0xc0
  }

  function Low6(b: byte): int
    requires Continuation(b)
  {
    b as int - 0x80
  }

  /** The code points that are characters; surrogates are not. */
  predicate Scalar(n: int) {
    0 <= n < 0xd800 || 0xe000 <= n < 0x110000
  }

  /** The code point at the front of `b` and the number of bytes it takes; overlong forms,
      surrogates and truncated forms are malformed. */
  function DecodeFirst(b: seq<byte>): (r: Option<(char, nat)>)
    requires b != []
    ensures r.Some? ==> 1 <= r.value.1 <= |b|
  {
    if b[0] < 0x80 then Some((b[0] as char, 1))
    else if 0xc0 <= b[0] < 0xe0 && 2 <= |b| && Continuation(b[1]) then
      var n := (b[0] as int - 0xc0) * 64 + Low6(b[1]);
      if 0x80 <= n then Some((n as char, 2)) else None
    else if 0xe0 <= b[0] < 0xf0 && 3 <= |b| && Continuation(b[1]) && Continuation(b[2]) then
      var n := (b[0] as int - 0xe0) * 4096 + Low6(b[1]) * 64 + Low6(b[2]);
      if 0x800 <= n && Scalar(n) then Some((n as char, 3)) else None
    else if 0xf0 <= b[0] < 0xf8 && 4 <= |b| && Continuation(b[1]) && Continuation(b[2]) && Continuation(b[3]) then
      var n := (b[0] as int - 0xf0) * 262144 + Low6(b[1]) * 4096 + Low6(b[2]) * 64 + Low6(b[3]);
      if 0x10000 <= n && Scalar(n) then Some((n as char, 4)) else None
    else None
  }

  /** The text a byte sequence encodes, or None when it is malformed. */
  function Decode(b: seq<byte>): Option<string>
    decreases |b|
  {
    if b == [] then Some("")
    else
      var first := DecodeFirst(b);
      if first.None? then None
      else
        var rest := Decode(b[first.value.1..]);
        if rest.None? then None else Some([first.value.0] + rest.value)
  }

  // ---------------------------------------------------------------------------------------
  // Round trip
  // ---------------------------------------------------------------------------------------

  lemma DecodeShort(c: char, rest: seq<byte>)
    requires c as int < 0x800
    ensures DecodeFirst(EncodeChar(c) + rest) == Some((c, |EncodeChar(c)|))
  {
    var b := EncodeChar(c) + rest;
    assert forall i :: 0 <= i < |EncodeChar(c)| ==> b[i] == EncodeChar(c)[i];
  }

  lemma DecodeThree(c: char, rest: seq<byte>)
    requires 0x800 <= c as int < 0x10000
    ensures DecodeFirst(EncodeChar(c) + rest) == Some((c, 3))
  {
    var n, b := c as int, EncodeChar(c) + rest;
    assert b[0] == EncodeChar(c)[0] && b[1] == EncodeChar(c)[1] && b[2] == EncodeChar(c)[2];
    assert n / 64 == (n / 4096) * 64 + n / 64 % 64;
  }

  lemma DecodeFour(c: char, rest: seq<byte>)
    requires 0x10000 <= c as int
    ensures DecodeFirst(EncodeChar(c) + rest) == Some((c, 4))
  {
    var n, b := c as int, EncodeChar(c) + rest;
    assert b[0] == EncodeChar(c)[0] && b[1] == EncodeChar(c)[1] && b[2] == EncodeChar(c)[2] && b[3] == EncodeChar(c)[3];
    assert n / 64 == (n / 4096) * 64 + n / 64 % 64;
    assert n / 4096 == (n / 262144) * 64 + n / 4096 % 64;
  }

  lemma DecodeFirstOfChar(c: char, rest: seq<byte>)
    ensures DecodeFirst(EncodeChar(c) + rest) == Some((c, |EncodeChar(c)|))
  {
    hide DecodeFirst;
    if c as int < 0x800 {
      DecodeShort(c, rest);
    } else if c as int < 0x10000 {
      DecodeThree(c, rest);
    } else {
      DecodeFour(c, rest);
    }
  }

  lemma {:induction false} DecodeEncode(s: string)
    ensures Decode(Encode(s)) == Some(s)
  {
    hide DecodeFirst, EncodeChar;
    if s != "" {
      DecodeEncode(s[1..]);
      DecodeFirstOfChar(s[0], Encode(s[1..]));
      assert Encode(s)[|EncodeChar(s[0])|..] == Encode(s[1..]);
      assert [s[0]] + s[1..] == s;
    }
  }

  lemma EncodeOfTwo(hi: int, lo: int)
    requires 2 <= hi < 32 && 0 <= lo < 64
    ensures EncodeChar((hi * 64 + lo) as char) == [(0xc0 + hi) as byte, (0x80 + lo) as byte]
  {
    var n := hi * 64 + lo;
    assert n / 64 == hi && n % 64 == lo;
  }

  lemma EncodeOfThree(hi: int, mid: int, lo: int)
    requires 0 <= hi < 16 && 0 <= mid < 64 && 0 <= lo < 64
    requires 0x800 <= hi * 4096 + mid * 64 + lo && Scalar(hi * 4096 + mid * 64 + lo)
    ensures EncodeChar((hi * 4096 + mid * 64 + lo) as char)
         == [(0xe0 + hi) as byte, (0x80 + mid) as byte, (0x80 + lo) as byte]
  {
    var n := hi * 4096 + mid * 64 + lo;
    assert n / 4096 == hi && n / 64 == hi * 64 + mid && n % 64 == lo;
    assert (hi * 64 + mid) % 64 == mid;
  }

  lemma EncodeOfFour(top: int, hi: int, mid: int, lo: int)
    requires 0 <= top < 8 && 0 <= hi < 64 && 0 <= mid < 64 && 0 <= lo < 64
    requires 0x10000 <= top * 262144 + hi * 4096 + mid * 64 + lo < 0x110000
    ensures EncodeChar((top * 262144 + hi * 4096 + mid * 64 + lo) as char)
         == [(0xf0 + top) as byte, (0x80 + hi) as byte, (0x80 + mid) as byte, (0x80 + lo) as byte]
  {
    var n := top * 262144 + hi * 4096 + mid * 64 + lo;
    assert n / 262144 == top && n / 4096 == top * 64 + hi && n / 64 == top * 4096 + hi * 64 + mid && n % 64 == lo;
    assert (top * 64 + hi) % 64 == hi && (top * 4096 + hi * 64 + mid) % 64 == mid;
  }

  lemma EncodeOfDecodedFirst(b: seq<byte>)
    requires b != [] && DecodeFirst(b).Some?
    ensures EncodeChar(DecodeFirst(b).value.0) == b[..DecodeFirst(b).value.1]
  {
    if b[0] < 0x80 {
    } else {
      hide EncodeChar;
      if b[0] < 0xe0 {
        EncodeOfTwo(b[0] as int - 0xc0, Low6(b[1]));
      } else if b[0] < 0xf0 {
        EncodeOfThree(b[0] as int - 0xe0, Low6(b[1]), Low6(b[2]));
      } else {
        EncodeOfFour(b[0] as int - 0xf0, Low6(b[1]), Low6(b[2]), Low6(b[3]));
      }
    }
  }

  /** Decoding succeeds on exactly the encodings of texts, and inverts them. */
  lemma {:induction false} DecodeIffEncode(b: seq<byte>, s: string)
    ensures Decode(b) == Some(s) <==> b == Encode(s)
    decreases |b|
  {
    if b == Encode(s) {
      DecodeEncode(s);
    }
    if Decode(b) == Some(s) && b != [] {
      var first := DecodeFirst(b).value;
      DecodeIffEncode(b[first.1..], s[1..]);
      EncodeOfDecodedFirst(b);
      assert s[0] == first.0;
      assert b == b[..first.1] + b[first.1..];
    }
  }

  lemma {:induction false} EncodeAppend(a: string, b: string)
    ensures Encode(a + b) == Encode(a) + Encode(b)
  {
    if a == "" {
      assert a + b == b;
    } else {
      EncodeAppend(a[1..], b);
      assert (a + b)[0] == a[0] && (a + b)[1..] == a[1..] + b;
    }
  }

  // ---------------------------------------------------------------------------------------
  // Character boundaries
  // ---------------------------------------------------------------------------------------

  /** The number of bytes of the first `k` characters. */
  function Offset(s: string, k: nat): (r: nat)
    requires k <= |s|
  {
    |Encode(s[..k])|
  }

  lemma {:induction false} EncodeSplit(s: string, k: nat)
    requires k <= |s|
    ensures Encode(s) == Encode(s[..k]) + Encode(s[k..])
    ensures Offset(s, k) <= |Encode(s)|
    ensures Encode(s)[..Offset(s, k)] == Encode(s[..k]) && Encode(s)[Offset(s, k)..] == Encode(s[k..])
  {
    EncodeAppend(s[..k], s[k..]);
    assert s[..k] + s[k..] == s;
  }

  lemma OffsetStep(s: string, k: nat)
    requires k < |s|
    ensures Offset(s, k + 1) == Offset(s, k) + |EncodeChar(s[k])|
  {
    EncodeAppend(s[..k], [s[k]]);
    assert s[..k + 1] == s[..k] + [s[k]];
    assert Encode([s[k]]) == EncodeChar(s[k]) + Encode([]);
  }

  lemma {:induction false} OffsetMonotone(s: string, j: nat, k: nat)
    requires j <= k <= |s|
    ensures Offset(s, k) - Offset(s, j) >= k - j
    decreases k - j
  {
    if j < k {
      OffsetStep(s, k - 1);
      OffsetMonotone(s, j, k - 1);
    }
  }

  lemma CharBytes(c: char, i: nat)
    requires i < |EncodeChar(c)|
    ensures Continuation(EncodeChar(c)[i]) <==> i > 0
  {
  }

  /** The byte at an offset inside the character `k` is a continuation byte unless it is its first. */
  lemma ByteInsideChar(s: string, k: nat, i: nat)
    requires k < |s| && Offset(s, k) <= i < Offset(s, k + 1)
    ensures i < |Encode(s)|
    ensures Continuation(Encode(s)[i]) <==> i > Offset(s, k)
  {
    EncodeSplit(s, k);
    EncodeSplit(s, k + 1);
    OffsetStep(s, k);
    var tail := s[k..];
    assert tail[0] == s[k];
    assert Encode(tail) == EncodeChar(s[k]) + Encode(tail[1..]);
    assert Encode(s)[i] == Encode(tail)[i - Offset(s, k)] == EncodeChar(s[k])[i - Offset(s, k)];
    CharBytes(s[k], i - Offset(s, k));
  }

  /** Every offset lies in exactly one character. */
  lemma {:induction false} CharAt(s: string, i: nat) returns (k: nat)
    requires i < |Encode(s)|
    ensures k < |s| && Offset(s, k) <= i < Offset(s, k + 1)
  {
    k := 0;
    assert s[..0] == "" && s[..|s|] == s;
    while Offset(s, k + 1) <= i
      invariant k < |s| && Offset(s, k) <= i
      decreases |s| - k
    {
      k := k + 1;
    }
  }
}
