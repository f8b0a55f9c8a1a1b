/**
 * The wire codec. Keys and values travel as byte strings produced by a
 * serializer that first renders the object as text and then writes that text
 * as a tagged string. The model keeps the text as the value itself and writes
 * it with a concrete, invertible encoding: a one-byte string tag followed by
 * three big-endian bytes per character.
 */
module Codec {
  import opened Wrappers

  type Byte = b: int | 0 <= b < 256
  type Bytes = seq<Byte>

  /** A key or value in its textual form; client and server share this domain. */
  type Value = string

  /** The tag written before every serialized string. */
  const StringTag: Byte := 3

  predicate IsScalar(n: int) {
    0 <= n < 0xD800 || 0xE000 <= n < 0x11_0000
  }

  function CharBytes(c: char): (b: seq<Byte>)
    ensures |b| == 3
  {
    var n := c as int;
    [n / 0x1_0000, (n / 0x100) % 0x100, n % 0x100]
  }

  function TripleChar(b0: Byte, b1: Byte, b2: Byte): Option<char> {
    var n := b0 * 0x1_0000 + b1 * 0x100 + b2;
    if IsScalar(n) then Some(n as char) else None
  }

  function EncodeChars(s: string): (b: Bytes)
    ensures |b| == 3 * |s|
  {
    if s == [] then [] else CharBytes(s[0]) + EncodeChars(s[1..])
  }

  function DecodeChars(b: Bytes): Option<string>
    decreases |b|
  {
    if b == [] then Some([])
    else if |b| < 3 then None
    else
      match TripleChar(b[0], b[1], b[2])
      case None => None
      case Some(c) =>
        match DecodeChars(b[3..])
        case None => None
        case Some(rest) => Some([c] + rest)
  }

  /** Serialization: never yields the empty byte string, which the protocol reserves for "absent". */
  function Encode(v: Value): (b: Bytes)
    ensures |b| == 1 + 3 * |v| && b[0] == StringTag
  {
    [StringTag] + EncodeChars(v)
  }

  /** Deserialization; `None` is the "Deserialization error" the source raises. */
  function Decode(b: Bytes): Option<Value> {
    if b == [] || b[0] != StringTag then None else DecodeChars(b[1..])
  }

  lemma CharRoundTrip(c: char)
    ensures var b := CharBytes(c); TripleChar(b[0], b[1], b[2]) == Some(c)
  {
    var n := c as int;
    var q := n / 0x100;
    assert n == q * 0x100 + n % 0x100;
    assert q == (q / 0x100) * 0x100 + q % 0x100;
    assert n / 0x1_0000 == q / 0x100;
    assert n == (n / 0x1_0000) * 0x1_0000 + ((n / 0x100) % 0x100) * 0x100 + n % 0x100;
  }

  lemma TripleRoundTrip(b0: Byte, b1: Byte, b2: Byte, c: char)
    requires TripleChar(b0, b1, b2) == Some(c)
    ensures CharBytes(c) == [b0, b1, b2]
  {
    var n := b0 * 0x1_0000 + b1 * 0x100 + b2;
    assert c as int == n;
    assert n / 0x1_0000 == b0;
    assert n / 0x100 == b0 * 0x100 + b1;
  }

  lemma {:induction false} DecodeCharsEncodeChars(s: string)
    ensures DecodeChars(EncodeChars(s)) == Some(s)
  {
    if s != [] {
      var b := EncodeChars(s);
      CharRoundTrip(s[0]);
      assert b[3..] == EncodeChars(s[1..]);
      DecodeCharsEncodeChars(s[1..]);
      assert [s[0]] + s[1..] == s;
    }
  }

  /** Decoding inverts encoding: every value survives the wire unchanged. */
  lemma DecodeEncode(v: Value)
    ensures Decode(Encode(v)) == Some(v)
  {
    assert Encode(v)[1..] == EncodeChars(v);
    DecodeCharsEncodeChars(v);
  }

  lemma {:induction false} EncodeCharsDecodeChars(b: Bytes, s: string)
    requires DecodeChars(b) == Some(s)
    ensures EncodeChars(s) == b
    decreases |b|
  {
    if b != [] {
      var c := TripleChar(b[0], b[1], b[2]).value;
      var rest := DecodeChars(b[3..]).value;
      assert s == [c] + rest;
      TripleRoundTrip(b[0], b[1], b[2], c);
      EncodeCharsDecodeChars(b[3..], rest);
      assert s[1..] == rest;
      assert b == b[..3] + b[3..];
    }
  }

  /** The encoding is canonical: a byte string that decodes is the encoding of what it decodes to. */
  lemma EncodeDecode(b: Bytes, v: Value)
    requires Decode(b) == Some(v)
    ensures Encode(v) == b
  {
    EncodeCharsDecodeChars(b[1..], v);
    assert b == [b[0]] + b[1..];
  }

  /** Distinct values have distinct encodings, so the server's key lookup on decoded keys is exact. */
  lemma EncodeInjective(u: Value, v: Value)
    requires Encode(u) == Encode(v)
    ensures u == v
  {
    DecodeEncode(u);
    DecodeEncode(v);
  }
}
