/** UTF-8, as used by `str.encode("utf-8")` and the strict `bytes.decode()`:
    the encoding of Unicode scalar values (Dafny's `char`) into one to four
    bytes, and the decoder that accepts exactly the well-formed byte sequences
    of table 3-7 of the Unicode Standard, chapter 3. */
module Utf8 {

  import opened Wrappers

  newtype byte = x: int | 0 <= x < 256

  /** A continuation byte, `10xxxxxx` */
  predicate IsContinuation(b: byte) {
    0x80 <= b <= 0xBF
  }

  function EncodeChar(c: char): (r: seq<byte>)
    ensures 1 <= |r| <= 4
  {
    var v := c as int;
    if v < 0x80 then
      [v as byte]
    else if v < 0x800 then
      [(0xC0 + v / 64) as byte, (0x80 + v % 64) as byte]
    else if v < 0x10000 then
      [(0xE0 + v / 4096) as byte, (0x80 + (v / 64) % 64) as byte, (0x80 + v % 64) as byte]
    else
      [(0xF0 + v / 262144) as byte, (0x80 + (v / 4096) % 64) as byte,
       (0x80 + (v / 64) % 64) as byte, (0x80 + v % 64) as byte]
  }

  /** `text.encode("utf-8")` */
  function Encode(s: string): seq<byte> {
    if |s| == 0 then [] else EncodeChar(s[0]) + Encode(s[1..])
  }

  /** The character at the start of `b` and the number of bytes it occupies,
      or `None` when `b` does not start with a well-formed sequence */
  function DecodeFirst(b: seq<byte>): (r: Option<(char, nat)>)
    ensures r.Some? ==> 1 <= r.value.1 <= |b|
  {
    if |b| == 0 then None
    else
      var b0 := b[0] as int;
      if b0 < 0x80 then
        Some((b0 as char, 1))
      else if 0xC2 <= b0 <= 0xDF then
        if |b| >= 2 && IsContinuation(b[1]) then
          Some((((b0 - 0xC0) * 64 + (b[1] as int - 0x80)) as char, 2))
        else None
      else if 0xE0 <= b0 <= 0xEF then
        var lo := if b0 == 0xE0 then 0xA0 else 0x80;
        var hi := if b0 == 0xED then 0x9F else 0xBF;
        if |b| >= 3 && lo <= b[1] as int <= hi && IsContinuation(b[2]) then
          Some((((b0 - 0xE0) * 4096 + (b[1] as int - 0x80) * 64 + (b[2] as int - 0x80)) as char, 3))
        else None
      else if 0xF0 <= b0 <= 0xF4 then
        var lo := if b0 == 0xF0 then 0x90 else 0x80;
        var hi := if b0 == 0xF4 then 0x8F else 0xBF;
        if |b| >= 4 && lo <= b[1] as int <= hi && IsContinuation(b[2]) && IsContinuation(b[3]) then
          Some((((b0 - 0xF0) * 262144 + (b[1] as int - 0x80) * 4096
                 + (b[2] as int - 0x80) * 64 + (b[3] as int - 0x80)) as char, 4))
        else None
      else None
  }

  /** Strict `data.decode()`: `None` stands for `UnicodeDecodeError` */
  function Decode(b: seq<byte>): Option<string>
    decreases |b|
  {
    if |b| == 0 then Some("")
    else match DecodeFirst(b)
      case None => None
      case Some((c, n)) =>
        match Decode(b[n..])
        case None => None
        case Some(rest) => Some([c] + rest)
  }

  lemma DecodeFirstOfTwoBytes(c: char, rest: seq<byte>)
    requires 0x80 <= c as int < 0x800
    ensures DecodeFirst(EncodeChar(c) + rest) == Some((c, 2))
  {
    var v := c as int;
    var q, r := v / 64, v % 64;
    assert v == q * 64 + r;
    assert 2 <= q < 32;
  }

  lemma DecodeFirstOfThreeBytes(c: char, rest: seq<byte>)
    requires 0x800 <= c as int < 0x10000
    ensures DecodeFirst(EncodeChar(c) + rest) == Some((c, 3))
  {
    var v := c as int;
    var q, m := v / 4096, v % 4096;
    var p, r := m / 64, m % 64;
    assert v == q * 4096 + p * 64 + r;
    assert (v / 64) % 64 == p by {
      assert v / 64 == q * 64 + p;
    }
    assert v % 64 == r;
    assert q == 0 ==> p >= 32;
    assert q == 13 ==> p < 32;
  }

  lemma DecodeFirstOfFourBytes(c: char, rest: seq<byte>)
    requires 0x10000 <= c as int
    ensures DecodeFirst(EncodeChar(c) + rest) == Some((c, 4))
  {
    var v := c as int;
    var q, m := v / 262144, v % 262144;
    var p, m' := m / 4096, m % 4096;
    var o, r := m' / 64, m' % 64;
    assert v == q * 262144 + p * 4096 + o * 64 + r;
    assert (v / 4096) % 64 == p by {
      assert v / 4096 == q * 64 + p;
    }
    assert (v / 64) % 64 == o by {
      assert v / 64 == q * 4096 + p * 64 + o;
    }
    assert v % 64 == r;
    assert q <= 4;
    assert q == 0 ==> p >= 16;
    assert q == 4 ==> p < 16;
  }

  /** Decoding the encoding of one character gives the character back and
      consumes exactly its bytes */
  lemma DecodeFirstOfEncodeChar(c: char, rest: seq<byte>)
    ensures DecodeFirst(EncodeChar(c) + rest) == Some((c, |EncodeChar(c)|))
  {
    var v := c as int;
    if v < 0x80 {
    } else if v < 0x800 {
      DecodeFirstOfTwoBytes(c, rest);
    } else if v < 0x10000 {
      DecodeFirstOfThreeBytes(c, rest);
    } else {
      DecodeFirstOfFourBytes(c, rest);
    }
  }

  /** Every string survives a UTF-8 round trip */
  lemma {:induction false} DecodeEncode(s: string)
    ensures Decode(Encode(s)) == Some(s)
  {
    if |s| > 0 {
      var e := EncodeChar(s[0]);
      var b := Encode(s);
      assert b == e + Encode(s[1..]);
      DecodeFirstOfEncodeChar(s[0], Encode(s[1..]));
      assert b[|e|..] == Encode(s[1..]);
      DecodeEncode(s[1..]);
      assert [s[0]] + s[1..] == s;
    }
  }
  lemma EncodeOfTwoBytes(b: seq<byte>)
    requires DecodeFirst(b).Some? && 0xC2 <= b[0] <= 0xDF
    ensures EncodeChar(DecodeFirst(b).value.0) == b[..2]
  {
    var x, y := b[0] as int - 0xC0, b[1] as int - 0x80;
    var v := DecodeFirst(b).value.0 as int;
    assert v == x * 64 + y && 0 <= y < 64;
    assert v / 64 == x && v % 64 == y;
  }

  lemma EncodeOfThreeBytes(b: seq<byte>)
    requires DecodeFirst(b).Some? && 0xE0 <= b[0] <= 0xEF
    ensures EncodeChar(DecodeFirst(b).value.0) == b[..3]
  {
    var x, y, z := b[0] as int - 0xE0, b[1] as int - 0x80, b[2] as int - 0x80;
    var v := DecodeFirst(b).value.0 as int;
    assert v == x * 4096 + y * 64 + z && 0 <= y < 64 && 0 <= z < 64;
    assert v / 4096 == x;
    assert v / 64 == x * 64 + y;
    assert (v / 64) % 64 == y && v % 64 == z;
  }

  lemma EncodeOfFourBytes(b: seq<byte>)
    requires DecodeFirst(b).Some? && 0xF0 <= b[0]
    ensures EncodeChar(DecodeFirst(b).value.0) == b[..4]
  {
    var w, x, y, z := b[0] as int - 0xF0, b[1] as int - 0x80, b[2] as int - 0x80, b[3] as int - 0x80;
    var v := DecodeFirst(b).value.0 as int;
    assert v == w * 262144 + x * 4096 + y * 64 + z && 0 <= x < 64 && 0 <= y < 64 && 0 <= z < 64;
    assert v / 262144 == w;
    assert v / 4096 == w * 64 + x;
    assert v / 64 == w * 4096 + x * 64 + y;
    assert (v / 4096) % 64 == x && (v / 64) % 64 == y && v % 64 == z;
  }

  /** A well-formed sequence at the start of `b` is the encoding of the
      character it decodes to: the decoder accepts no over-long form */
  lemma EncodeOfDecodeFirst(b: seq<byte>)
    requires DecodeFirst(b).Some?
    ensures EncodeChar(DecodeFirst(b).value.0) == b[..DecodeFirst(b).value.1]
  {
    if b[0] < 0x80 {
    } else if b[0] <= 0xDF {
      EncodeOfTwoBytes(b);
    } else if b[0] <= 0xEF {
      EncodeOfThreeBytes(b);
    } else {
      EncodeOfFourBytes(b);
    }
  }

  /** Bytes that decode are the encoding of the decoded text */
  lemma {:induction false} EncodeOfDecode(b: seq<byte>)
    requires Decode(b).Some?
    ensures Encode(Decode(b).value) == b
    decreases |b|
  {
    if |b| > 0 {
      var (c, n) := DecodeFirst(b).value;
      var rest := Decode(b[n..]).value;
      assert Decode(b).value == [c] + rest;
      calc {
        Encode([c] + rest);
        { assert ([c] + rest)[0] == c && ([c] + rest)[1..] == rest; }
        EncodeChar(c) + Encode(rest);
        { EncodeOfDecodeFirst(b); EncodeOfDecode(b[n..]); }
        b[..n] + b[n..];
      }
      assert b[..n] + b[n..] == b;
    }
  }
}
