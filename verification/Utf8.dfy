/** UTF-8 between texts and bytes, strict as the boundary decodes it: no overlong forms, no
    surrogates, nothing past the last code point. */
module Utf8 {
  import opened Prelude

  function EncodeChar(c: char): (out: seq<byte>)
    ensures 1 <= |out| <= 4
  {
    var n := c as int;
    if n < 0x80 then [n as byte]
    else if n < 0x800 then [(0xC0 + n / 64) as byte, (0x80 + n % 64) as byte]
    else if n < 0x10000 then [(0xE0 + n / 4096) as byte, (0x80 + n / 64 % 64) as byte, (0x80 + n % 64) as byte]
    else [(0xF0 + n / 262144) as byte, (0x80 + n / 4096 % 64) as byte, (0x80 + n / 64 % 64) as byte, (0x80 + n % 64) as byte]
  }

  function Encode(s: string): seq<byte> {
    if s == "" then [] else EncodeChar(s[0]) + Encode(s[1..])
  }

  predicate Continuation(b: byte) { 0x80 <= b < 0xC0 }

  function Tail(b: byte): int
    requires Continuation(b)
  {
    b as int - 0x80
  }

  predicate Scalar(n: int) { 0 <= n < 0xD800 || 0xE000 <= n < 0x11_0000 }

  /** How many bytes the sequence that starts with this byte has; 0 if none starts so. */
  function Length(lead: byte): nat {
    if lead < 0x80 then 1
    else if lead < 0xC2 then 0
    else if lead < 0xE0 then 2
    else if lead < 0xF0 then 3
    else if lead < 0xF5 then 4
    else 0
  }

  /** The code point of a complete sequence, whether or not it may be encoded so. */
  function CodePoint(b: seq<byte>): int
    requires |b| > 0 && |b| == Length(b[0])
    requires forall i | 1 <= i < |b| :: Continuation(b[i])
  {
    if |b| == 1 then b[0] as int
    else if |b| == 2 then (b[0] as int - 0xC0) * 64 + Tail(b[1])
    else if |b| == 3 then (b[0] as int - 0xE0) * 4096 + Tail(b[1]) * 64 + Tail(b[2])
    else (b[0] as int - 0xF0) * 262144 + Tail(b[1]) * 4096 + Tail(b[2]) * 64 + Tail(b[3])
  }

  /** The shortest length that can hold the code point. */
  function Needed(n: int): nat {
    if n < 0x80 then 1 else if n < 0x800 then 2 else if n < 0x10000 then 3 else 4
  }

  function DecodeChar(b: seq<byte>): (r: Option<char>)
    requires |b| > 0
    ensures r.Some? ==> 0 < Length(b[0]) <= |b|
  {
    var k := Length(b[0]);
    if k == 0 || |b| < k || exists i | 1 <= i < k :: !Continuation(b[i]) then None
    else
      var n := CodePoint(b[..k]);
      if Scalar(n) && Needed(n) == k then Some(n as char) else None
  }

  function Decode(b: seq<byte>): Option<string> {
    if b == [] then Some("")
    else
      var c := DecodeChar(b);
      if c.None? then None
      else
        var rest := Decode(b[Length(b[0])..]);
        if rest.None? then None else Some([c.value] + rest.value)
  }

  // ----- Round trips ----------------------------------------------------------------------------------------

  lemma EncodedShape(c: char)
    ensures var b := EncodeChar(c);
      && Length(b[0]) == |b| == Needed(c as int)
      && (forall i | 1 <= i < |b| :: Continuation(b[i]))
      && CodePoint(b) == c as int
  {
    var n, b := c as int, EncodeChar(c);
    if n < 0x80 {
    } else if n < 0x800 {
      assert n == n / 64 * 64 + n % 64;
    } else if n < 0x10000 {
      assert n / 64 == n / 4096 * 64 + n / 64 % 64;
      assert n == n / 64 * 64 + n % 64;
    } else {
      assert n / 4096 == n / 262144 * 64 + n / 4096 % 64;
      assert n / 64 == n / 4096 * 64 + n / 64 % 64;
      assert n == n / 64 * 64 + n % 64;
    }
  }

  lemma DecodeEncodedChar(c: char, rest: seq<byte>)
    ensures DecodeChar(EncodeChar(c) + rest) == Some(c)
    ensures Length((EncodeChar(c) + rest)[0]) == |EncodeChar(c)|
  {
    EncodedShape(c);
    var b := EncodeChar(c);
    assert (b + rest)[..|b|] == b;
    assert forall i {:trigger b[i]} | 0 <= i < |b| :: (b + rest)[i] == b[i];
    hide EncodeChar, CodePoint, Needed, Length, Continuation;
  }

  /** Decoding undoes encoding. */
  lemma {:induction false} DecodeEncoded(s: string)
    ensures Decode(Encode(s)) == Some(s)
  {
    if s != "" {
      var b, rest := EncodeChar(s[0]), Encode(s[1..]);
      DecodeEncoded(s[1..]);
      DecodeEncodedChar(s[0], rest);
      assert (b + rest)[|b|..] == rest;
      hide DecodeChar, EncodeChar, Length;
      assert Encode(s) == b + rest;
      assert [s[0]] + s[1..] == s;
    }
  }

  /** A sequence of the needed length is the encoding of its code point. */
  lemma EncodeCodePoint(b: seq<byte>)
    requires |b| > 0 && |b| == Length(b[0]) && (forall i | 1 <= i < |b| :: Continuation(b[i]))
    requires Scalar(CodePoint(b)) && Needed(CodePoint(b)) == |b|
    ensures EncodeChar(CodePoint(b) as char) == b
  {
    var n := CodePoint(b);
    if |b| == 2 {
      assert n / 64 == b[0] as int - 0xC0 && n % 64 == Tail(b[1]);
    } else if |b| == 3 {
      Split(b[0] as int - 0xE0, Tail(b[1]), Tail(b[2]));
    } else if |b| == 4 {
      var high := (b[0] as int - 0xF0) * 64 + Tail(b[1]);
      Split(high, Tail(b[2]), Tail(b[3]));
      assert high / 64 == b[0] as int - 0xF0 && high % 64 == Tail(b[1]);
      assert n / 262144 == high / 64 by { assert n / 4096 == high; }
    }
  }

  lemma Split(high: int, mid: int, low: int)
    requires high >= 0 && 0 <= mid < 64 && 0 <= low < 64
    ensures var n := high * 4096 + mid * 64 + low; n / 4096 == high && n / 64 % 64 == mid && n % 64 == low
  {
    var n := high * 4096 + mid * 64 + low;
    assert n / 64 == high * 64 + mid;
  }

  /** Whatever decodes is the encoding of the result, so decoding is injective. */
  lemma {:induction false} EncodeDecoded(b: seq<byte>)
    requires Decode(b).Some?
    ensures Encode(Decode(b).value) == b
  {
    if b != [] {
      var k := Length(b[0]);
      EncodeDecoded(b[k..]);
      assert b[..k][0] == b[0];
      EncodeCodePoint(b[..k]);
      assert b == b[..k] + b[k..];
      var c, rest := DecodeChar(b).value, Decode(b[k..]).value;
      assert EncodeChar(c) == b[..k];
      assert ([c] + rest)[1..] == rest;
      hide DecodeChar, EncodeChar, CodePoint, Length;
    }
  }
}
