/** UTF-8 as section 3 of RFC 3629 defines it. */
module Utf8 {
  import opened Json
  import opened Seqs

  type Byte = b: int | 0 <= b < 256

  function EncodeChar(c: char): (bs: seq<Byte>)
    ensures 1 <= |bs| <= 4
  {
    var v := c as int;
    if v < 0x80 then [v]
    else if v < 0x800 then [0xC0 + v / 0x40, 0x80 + v % 0x40]
    else if v < 0x10000 then [0xE0 + v / 0x1000, 0x80 + v / 0x40 % 0x40, 0x80 + v % 0x40]
    else [0xF0 + v / 0x40000, 0x80 + v / 0x1000 % 0x40, 0x80 + v / 0x40 % 0x40, 0x80 + v % 0x40]
  }

  function Encode(s: string): seq<Byte> {
    if s == "" then [] else EncodeChar(s[0]) + Encode(s[1..])
  }

  predicate IsTail(b: Byte) {
    0x80 <= b < 0xC0
  }

  predicate IsScalar(v: int) {
    0 <= v < 0xD800 || 0xE000 <= v < 0x11_0000
  }

  function Value2(b0: int, b1: int): int {
    (b0 - 0xC0) * 0x40 + (b1 - 0x80)
  }

  function Value3(b0: int, b1: int, b2: int): int {
    (b0 - 0xE0) * 0x1000 + (b1 - 0x80) * 0x40 + (b2 - 0x80)
  }

  function Value4(b0: int, b1: int, b2: int, b3: int): int {
    (b0 - 0xF0) * 0x40000 + (b1 - 0x80) * 0x1000 + (b2 - 0x80) * 0x40 + (b3 - 0x80)
  }

  /** A code point read from `n` bytes, provided it is a scalar value that needs that many. */
  function Scalar(v: int, least: int, n: nat): Option<(char, nat)> {
    if v >= least && IsScalar(v) then Some((v as char, n)) else None
  }

  /** The code point at the start of `b` and its length; overlong forms and surrogates are refused. */
  function DecodeOne(b: seq<Byte>): (r: Option<(char, nat)>)
    ensures r.Some? ==> 1 <= r.value.1 <= |b|
  {
    if |b| >= 1 && b[0] < 0x80 then Scalar(b[0], 0, 1)
    else if |b| >= 2 && 0xC0 <= b[0] < 0xE0 && IsTail(b[1]) then Scalar(Value2(b[0], b[1]), 0x80, 2)
    else if |b| >= 3 && 0xE0 <= b[0] < 0xF0 && IsTail(b[1]) && IsTail(b[2]) then
      Scalar(Value3(b[0], b[1], b[2]), 0x800, 3)
    else if |b| >= 4 && 0xF0 <= b[0] < 0xF8 && IsTail(b[1]) && IsTail(b[2]) && IsTail(b[3]) then
      Scalar(Value4(b[0], b[1], b[2], b[3]), 0x10000, 4)
    else None
  }

  /** Strict decoding: one malformed sequence and there is no text. */
  function Decode(b: seq<Byte>): Option<string>
    decreases |b|
  {
    if b == [] then Some("")
    else
      match DecodeOne(b)
      case None => None
      case Some((c, n)) =>
        var rest := Decode(b[n..]);
        if rest.None? then None else Some([c] + rest.value)
  }

  lemma Joined2(v: int)
    requires 0x80 <= v < 0x800
    ensures Value2(0xC0 + v / 0x40, 0x80 + v % 0x40) == v
  {
  }

  lemma Joined3(v: int)
    requires 0x800 <= v < 0x10000
    ensures Value3(0xE0 + v / 0x1000, 0x80 + v / 0x40 % 0x40, 0x80 + v % 0x40) == v
  {
    assert v / 0x1000 == v / 0x40 / 0x40;
  }

  lemma Joined4(v: int)
    requires 0x10000 <= v < 0x11_0000
    ensures Value4(0xF0 + v / 0x40000, 0x80 + v / 0x1000 % 0x40, 0x80 + v / 0x40 % 0x40, 0x80 + v % 0x40) == v
  {
    assert v / 0x1000 == v / 0x40 / 0x40 && v / 0x40000 == v / 0x1000 / 0x40;
  }

  lemma KeepsFront<T>(a: seq<T>, b: seq<T>)
    ensures forall i | 0 <= i < |a| :: (a + b)[i] == a[i]
  {
  }

  lemma DecodeOneReads(c: char, rest: seq<Byte>)
    ensures DecodeOne(EncodeChar(c) + rest) == Some((c, |EncodeChar(c)|))
  {
    var v, e := c as int, EncodeChar(c);
    KeepsFront(e, rest);
    if 0x80 <= v < 0x800 { Joined2(v); }
    if 0x800 <= v < 0x10000 { Joined3(v); }
    if 0x10000 <= v { Joined4(v); }
  }

  lemma Split2(h: Byte, l: Byte)
    requires 0xC0 <= h < 0xE0 && IsTail(l)
    ensures Value2(h, l) / 0x40 == h - 0xC0 && Value2(h, l) % 0x40 == l - 0x80
  {
  }

  lemma Split3(h: Byte, m: Byte, l: Byte)
    requires 0xE0 <= h < 0xF0 && IsTail(m) && IsTail(l)
    ensures
      var v := Value3(h, m, l);
      v / 0x1000 == h - 0xE0 && v / 0x40 % 0x40 == m - 0x80 && v % 0x40 == l - 0x80
  {
    var top: int := h - 0xE0;
    assert Value3(h, m, l) / 0x40 == top * 0x40 + (m - 0x80);
  }

  lemma Split4(g: Byte, h: Byte, m: Byte, l: Byte)
    requires 0xF0 <= g < 0xF8 && IsTail(h) && IsTail(m) && IsTail(l)
    ensures
      var v := Value4(g, h, m, l);
      && v / 0x40000 == g - 0xF0 && v / 0x1000 % 0x40 == h - 0x80
      && v / 0x40 % 0x40 == m - 0x80 && v % 0x40 == l - 0x80
  {
    var top: int, v := g - 0xF0, Value4(g, h, m, l);
    assert v / 0x1000 == top * 0x40 + (h - 0x80);
    assert v / 0x40 == (v / 0x1000) * 0x40 + (m - 0x80);
  }

  lemma DecodeOneWrote(b: seq<Byte>)
    requires DecodeOne(b).Some?
    ensures b[..DecodeOne(b).value.1] == EncodeChar(DecodeOne(b).value.0)
  {
    var (c, n) := DecodeOne(b).value;
    if n == 2 {
      Split2(b[0], b[1]);
    } else if n == 3 {
      Split3(b[0], b[1], b[2]);
    } else if n == 4 {
      Split4(b[0], b[1], b[2], b[3]);
    }
  }

  /** Decoding inverts encoding. */
  lemma {:induction false} DecodeEncode(s: string)
    ensures Decode(Encode(s)) == Some(s)
  {
    if s != "" {
      var c, rest := s[0], Encode(s[1..]);
      DecodeOneReads(c, rest);
      DecodeEncode(s[1..]);
      assert Encode(s)[|EncodeChar(c)|..] == rest;
      HeadTail(s);
    }
  }

  lemma EncodeCons(c: char, s: string)
    ensures Encode([c] + s) == EncodeChar(c) + Encode(s)
  {
    Cons(c, s);
  }

  lemma DecodeStep(b: seq<Byte>, c: char, n: nat)
    requires b != [] && Decode(b).Some? && DecodeOne(b) == Some((c, n))
    ensures Decode(b[n..]).Some? && Decode(b).value == [c] + Decode(b[n..]).value
    ensures b == EncodeChar(c) + b[n..]
  {
    DecodeOneWrote(b);
    assert b == b[..n] + b[n..];
  }

  /** Encoding inverts decoding: a text has exactly one encoding. */
  lemma {:induction false} EncodeDecode(b: seq<Byte>)
    requires Decode(b).Some?
    ensures Encode(Decode(b).value) == b
    decreases |b|
  {
    if b != [] {
      var (c, n) := DecodeOne(b).value;
      DecodeStep(b, c, n);
      var t := Decode(b[n..]).value;
      EncodeCons(c, t);
      EncodeDecode(b[n..]);
    }
  }

  /** No byte of a multi-byte sequence is an ASCII byte. */
  lemma HighBytes(c: char)
    requires c as int >= 0x80
    ensures forall b <- EncodeChar(c) :: b >= 0x80
  {
  }

  predicate IsAscii(b: seq<Byte>) {
    forall i | 0 <= i < |b| :: b[i] < 0x80
  }

  /** ASCII bytes as text. */
  function AsText(b: seq<Byte>): string
    requires IsAscii(b)
  {
    seq(|b|, i requires 0 <= i < |b| => b[i] as char)
  }

  lemma {:induction false} AsTextEncodes(b: seq<Byte>)
    requires IsAscii(b)
    ensures Encode(AsText(b)) == b
  {
    if b != [] {
      AsTextEncodes(b[1..]);
      assert AsText(b)[1..] == AsText(b[1..]);
      assert EncodeChar(b[0] as char) == [b[0]];
    }
  }

  /** The example of section 7 of RFC 3629, and one character of each length. */
  lemma EncodesExactly()
    ensures Encode("A\U{2262}\U{391}.") == [0x41, 0xE2, 0x89, 0xA2, 0xCE, 0x91, 0x2E]
    ensures EncodeChar('$') == [0x24] && EncodeChar('\U{A2}') == [0xC2, 0xA2]
    ensures EncodeChar('\U{20AC}') == [0xE2, 0x82, 0xAC] && EncodeChar('\U{10348}') == [0xF0, 0x90, 0x8D, 0x88]
  {
    var s := "A\U{2262}\U{391}.";
    assert s[1..] == "\U{2262}\U{391}." && s[1..][1..] == "\U{391}." && s[1..][1..][1..] == ".";
    assert "."[1..] == "";
  }
}
