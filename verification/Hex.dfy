/** Hexadecimal text. */
module Hex {
  import opened Json
  import opened Seqs
  import opened Utf8

  predicate IsHexChar(c: char) {
    '0' <= c <= '9' || 'A' <= c <= 'F' || 'a' <= c <= 'f'
  }

  function HexCharValue(c: char): (v: nat)
    requires IsHexChar(c)
    ensures v < 16
  {
    if c <= '9' then c as int - '0' as int
    else if c <= 'F' then c as int - 'A' as int + 10
    else c as int - 'a' as int + 10
  }

  function LowerHex(v: nat): char
    requires v < 16
  {
    if v < 10 then ('0' as int + v) as char else ('a' as int + v - 10) as char
  }

  /** Go's hex.EncodeToString. */
  function EncodeHex(b: seq<Byte>): string {
    if b == [] then "" else [LowerHex(b[0] / 16), LowerHex(b[0] % 16)] + EncodeHex(b[1..])
  }

  /** Go's hex.DecodeString: digit pairs in either case, and nothing else. */
  function DecodeHex(s: string): Option<seq<Byte>>
    decreases |s|
  {
    if s == "" then Some([])
    else if |s| >= 2 && IsHexChar(s[0]) && IsHexChar(s[1]) then
      var rest := DecodeHex(s[2..]);
      if rest.None? then None else Some([HexCharValue(s[0]) * 16 + HexCharValue(s[1])] + rest.value)
    else None
  }

  lemma LowerHexReads(v: nat)
    requires v < 16
    ensures IsHexChar(LowerHex(v)) && HexCharValue(LowerHex(v)) == v
  {
  }

  /** The two digits of one byte. */
  lemma DecodePair(b: Byte, rest: string)
    ensures
      DecodeHex([LowerHex(b / 16), LowerHex(b % 16)] + rest) ==
      if DecodeHex(rest).None? then None else Some([b] + DecodeHex(rest).value)
  {
    var s := [LowerHex(b / 16), LowerHex(b % 16)] + rest;
    LowerHexReads(b / 16);
    LowerHexReads(b % 16);
    assert s[2..] == rest;
    assert b / 16 * 16 + b % 16 == b;
  }

  lemma {:induction false} DecodeEncodeHex(b: seq<Byte>)
    ensures DecodeHex(EncodeHex(b)) == Some(b)
    ensures b != [] ==> EncodeHex(b) != ""
  {
    if b != [] {
      DecodeEncodeHex(b[1..]);
      DecodePair(b[0], EncodeHex(b[1..]));
      HeadTail(b);
    }
  }

  /** The digits, written out: lower case is written, either case is read. */
  lemma DigitsExactly(v: nat)
    requires v < 16
    ensures LowerHex(v) == "0123456789abcdef"[v]
    ensures IsHexChar("0123456789abcdef"[v]) && HexCharValue("0123456789abcdef"[v]) == v
    ensures IsHexChar("0123456789ABCDEF"[v]) && HexCharValue("0123456789ABCDEF"[v]) == v
  {
  }

  /** A byte is written high digit first. */
  lemma EncodesExactly(b: Byte, rest: seq<Byte>)
    ensures EncodeHex([b] + rest) == ["0123456789abcdef"[b / 16], "0123456789abcdef"[b % 16]] + EncodeHex(rest)
  {
    Cons(b, rest);
    DigitsExactly(b / 16);
    DigitsExactly(b % 16);
  }

  /** Only pairs of hex digits are read. */
  lemma {:induction false} ReadsExactly(s: string)
    ensures DecodeHex(s).Some? <==> |s| % 2 == 0 && forall c <- s :: IsHexChar(c)
    decreases |s|
  {
    if |s| >= 2 {
      ReadsExactly(s[2..]);
      assert s == [s[0]] + [s[1]] + s[2..];
    } else if |s| == 1 {
      assert s[0] in s;
    }
  }
}
