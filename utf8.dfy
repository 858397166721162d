/**
 * UTF-8 as defined in section 3 of RFC 3629: the codec behind
 * `str.encode("utf-8")`, which `Response.__call__` applies to every body item.
 * A Dafny `char` is a Unicode scalar value, so every string here is encodable.
 */
module Utf8 {
  import opened Wrappers

  type Byte = b: int | 0 <= b < 0x100

  /** True of the bytes 10xxxxxx that continue a multi-byte sequence. */
  predicate IsContinuation(b: Byte) {
    0x80 <= b < 0xC0
  }

  /** Number of octets section 3 of RFC 3629 assigns to a scalar value. */
  function Width(c: char): (n: nat)
    ensures 1 <= n <= 4
  {
    var v := c as int;
    if v < 0x80 then 1
    else if v < 0x800 then 2
    else if v < 0x10000 then 3
    else 4
  }

  /** The octet sequence of one scalar value (the table in section 3 of RFC 3629). */
  function EncodeScalar(c: char): (r: seq<Byte>)
    ensures |r| == Width(c)
    ensures !IsContinuation(r[0])
    ensures forall i :: 1 <= i < |r| ==> IsContinuation(r[i])
  {
    var v := c as int;
    if v < 0x80 then [v]
    else if v < 0x800 then [0xC0 + v / 64, 0x80 + v % 64]
    else if v < 0x10000 then [0xE0 + v / 64 / 64, 0x80 + v / 64 % 64, 0x80 + v % 64]
    else [0xF0 + v / 64 / 64 / 64, 0x80 + v / 64 / 64 % 64, 0x80 + v / 64 % 64, 0x80 + v % 64]
  }

  /** `s.encode("utf-8")`: the concatenation of the encodings of its characters. */
  function Encode(s: string): (r: seq<Byte>)
    ensures |r| >= |s|
    ensures r == [] <==> s == []
  {
    if s == [] then [] else EncodeScalar(s[0]) + Encode(s[1..])
  }

  /** Sum of the widths of the characters of `s`. */
  function EncodedLength(s: string): nat
  {
    if s == [] then 0 else Width(s[0]) + EncodedLength(s[1..])
  }

  /**
   * Reads the scalar value at the front of `bs`: the character and the number
   * of octets it occupies, or None when `bs` does not start with a well-formed
   * sequence (a stray continuation byte, a truncated sequence, an overlong
   * form, a surrogate or a value above U+10FFFF).
   */
  function DecodeScalar(bs: seq<Byte>): (r: Option<(char, nat)>)
    ensures r.Some? ==> 1 <= r.value.1 <= |bs|
  {
    if |bs| == 0 then None
    else if bs[0] < 0x80 then Some((bs[0] as char, 1))
    else if 0xC2 <= bs[0] < 0xE0 then
      if |bs| < 2 || !IsContinuation(bs[1]) then None
      else Some((((bs[0] as int - 0xC0) * 64 + (bs[1] as int - 0x80)) as char, 2))
    else if 0xE0 <= bs[0] < 0xF0 then
      if |bs| < 3 || !IsContinuation(bs[1]) || !IsContinuation(bs[2]) then None
      else
        var v := (bs[0] as int - 0xE0) * 4096 + (bs[1] as int - 0x80) * 64 + (bs[2] as int - 0x80);
        if v < 0x800 || (0xD800 <= v < 0xE000) then None else Some((v as char, 3))
    else if 0xF0 <= bs[0] < 0xF5 then
      if |bs| < 4 || !IsContinuation(bs[1]) || !IsContinuation(bs[2]) || !IsContinuation(bs[3]) then None
      else
        var v := (bs[0] as int - 0xF0) * 262144 + (bs[1] as int - 0x80) * 4096 + (bs[2] as int - 0x80) * 64 + (bs[3] as int - 0x80);
        if v < 0x10000 || v >= 0x110000 then None else Some((v as char, 4))
    else None
  }

  /** `bs.decode("utf-8")`: None when `bs` is not well-formed UTF-8. */
  function Decode(bs: seq<Byte>): (r: Option<string>)
    decreases |bs|
  {
    if bs == [] then Some([])
    else match DecodeScalar(bs)
      case None => None
      case Some((c, n)) =>
        match Decode(bs[n..])
        case None => None
        case Some(rest) => Some([c] + rest)
  }

  // ---------------------------------------------------------------------
  // Properties

  /** Each character's octets are read back as that character, whatever follows. */
  lemma DecodeEncodeScalar(c: char, rest: seq<Byte>)
    ensures DecodeScalar(EncodeScalar(c) + rest) == Some((c, Width(c)))
  {
    var v := c as int;
    var bs := EncodeScalar(c) + rest;
    var q1 := v / 64;
    var q2 := q1 / 64;
    assert v == q1 * 64 + v % 64;
    assert q1 == q2 * 64 + q1 % 64;
    assert q2 == (q2 / 64) * 64 + q2 % 64;
    if v < 0x80 {
    } else if v < 0x800 {
      assert bs[0] == 0xC0 + q1 && bs[1] == 0x80 + v % 64;
    } else if v < 0x10000 {
      assert bs[0] == 0xE0 + q2 && bs[1] == 0x80 + q1 % 64 && bs[2] == 0x80 + v % 64;
    } else {
      assert bs[0] == 0xF0 + q2 / 64 && bs[1] == 0x80 + q2 % 64;
      assert bs[2] == 0x80 + q1 % 64 && bs[3] == 0x80 + v % 64;
    }
  }

  /** Round trip: decoding the UTF-8 encoding of a string gives the string back. */
  lemma {:induction false} DecodeEncode(s: string)
    ensures Decode(Encode(s)) == Some(s)
  {
    if s != [] {
      var head := EncodeScalar(s[0]);
      var tail := Encode(s[1..]);
      DecodeEncodeScalar(s[0], tail);
      assert (head + tail)[|head|..] == tail;
      DecodeEncode(s[1..]);
      assert [s[0]] + s[1..] == s;
    }
  }

  /** The encoding is as long as the sum of the widths of the characters. */
  lemma {:induction false} EncodeLength(s: string)
    ensures |Encode(s)| == EncodedLength(s)
  {
    if s != [] {
      EncodeLength(s[1..]);
    }
  }

  /** Encoding distributes over concatenation. */
  lemma {:induction false} EncodeAppend(s: string, t: string)
    ensures Encode(s + t) == Encode(s) + Encode(t)
  {
    if s == [] {
      assert s + t == t;
    } else {
      assert (s + t)[1..] == s[1..] + t;
      EncodeAppend(s[1..], t);
    }
  }

  lemma DivMod64(q: int, r: int)
    requires 0 <= q && 0 <= r < 64
    ensures (q * 64 + r) / 64 == q && (q * 64 + r) % 64 == r
  {
  }

  /** A well-formed sequence read by DecodeScalar is exactly the encoding of its character. */
  lemma EncodeDecodeScalar(bs: seq<Byte>)
    requires DecodeScalar(bs).Some?
    ensures var (c, n) := DecodeScalar(bs).value; EncodeScalar(c) == bs[..n]
  {
    var (c, n) := DecodeScalar(bs).value;
    var v := c as int;
    if n == 2 {
      DivMod64(bs[0] as int - 0xC0, bs[1] as int - 0x80);
    } else if n == 3 {
      var q := (bs[0] as int - 0xE0) * 64 + (bs[1] as int - 0x80);
      assert v == q * 64 + (bs[2] as int - 0x80);
      DivMod64(q, bs[2] as int - 0x80);
      DivMod64(bs[0] as int - 0xE0, bs[1] as int - 0x80);
    } else if n == 4 {
      var q1 := (bs[0] as int - 0xF0) * 64 + (bs[1] as int - 0x80);
      var q2 := q1 * 64 + (bs[2] as int - 0x80);
      assert v == q2 * 64 + (bs[3] as int - 0x80);
      DivMod64(q2, bs[3] as int - 0x80);
      DivMod64(q1, bs[2] as int - 0x80);
      DivMod64(bs[0] as int - 0xF0, bs[1] as int - 0x80);
    }
  }

  /** One step of Decode: the first scalar, then the decoding of the rest. */
  lemma DecodeStep(bs: seq<Byte>)
    requires bs != [] && Decode(bs).Some?
    ensures DecodeScalar(bs).Some?
    ensures Decode(bs[DecodeScalar(bs).value.1..]).Some?
    ensures Decode(bs).value == [DecodeScalar(bs).value.0] + Decode(bs[DecodeScalar(bs).value.1..]).value
  {
  }

  /** One step of Encode. */
  lemma EncodeCons(c: char, s: string)
    ensures Encode([c] + s) == EncodeScalar(c) + Encode(s)
  {
    assert ([c] + s)[1..] == s;
  }

  /** Every string the decoder accepts re-encodes to exactly the bytes it was read from. */
  lemma {:induction false} EncodeDecode(bs: seq<Byte>)
    requires Decode(bs).Some?
    ensures Encode(Decode(bs).value) == bs
    decreases |bs|
  {
    if bs != [] {
      DecodeStep(bs);
      var (c, n) := DecodeScalar(bs).value;
      var rest := Decode(bs[n..]).value;
      calc {
        Encode(Decode(bs).value);
        Encode([c] + rest);
        { EncodeCons(c, rest); }
        EncodeScalar(c) + Encode(rest);
        { EncodeDecodeScalar(bs); EncodeDecode(bs[n..]); }
        bs[..n] + bs[n..];
        bs;
      }
    }
  }
}
