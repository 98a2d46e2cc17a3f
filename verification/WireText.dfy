/** The wire form on text, as the TypeScript SDK computes it, and its agreement with the bytes of Go. */
module WireText {
  import opened Json
  import opened Hex
  import opened Seqs
  import opened Utf8
  import opened WireId

  predicate IsLeadChar(c: char) {
    c == '~' || c == '%'
  }

  predicate AtEscapeText(w: string) {
    |w| >= 3 && IsLeadChar(w[0]) && IsHexChar(w[1]) && IsHexChar(w[2])
  }

  /** The bytes an id stands for: escapes as their value, other characters as their UTF-8 bytes. */
  function IdBytes(w: string): seq<Byte>
    decreases |w|
  {
    if w == "" then []
    else if AtEscapeText(w) then [HexCharValue(w[1]) * 16 + HexCharValue(w[2])] + IdBytes(w[3..])
    else EncodeChar(w[0]) + IdBytes(w[1..])
  }

  predicate HasEscapedSlashText(w: string)
    decreases |w|
  {
    |w| >= 3 && ((IsLeadChar(w[0]) && w[1] == '2' && w[2] in {'F', 'f'}) || HasEscapedSlashText(w[1..]))
  }

  const BOM: seq<Byte> := [0xEF, 0xBB, 0xBF]

  predicate StartsWithBom(b: seq<Byte>) {
    |b| >= 3 && b[..3] == BOM
  }

  /** A fatal `TextDecoder`: a leading byte order mark is dropped, malformed bytes throw. */
  function DecodeText(b: seq<Byte>): Option<string> {
    Decode(if StartsWithBom(b) then b[3..] else b)
  }

  function UnprojectText(wire: string): Option<string> {
    DecodeText(IdBytes(wire))
  }

  function BoundText(id: string): Option<string> {
    if '/' !in id && HasEscapedSlashText(id) then UnprojectText(id) else Some(id)
  }

  lemma EscapedIsAscii(x: seq<Byte>)
    ensures IsAscii(EscapeAll(x))
  {
    EscapedShape(x);
    forall i | 0 <= i < |EscapeAll(x)| ensures EscapeAll(x)[i] < 0x80 {
      assert EscapeAll(x)[i] in EscapeAll(x);
    }
  }

  /** `None` stands for the exception that malformed bytes raise. */
  function ProjectText(id: string): Option<string> {
    match BoundText(id)
    case None => None
    case Some(bound) =>
      EscapedIsAscii(Encode(bound));
      Some(AsText(EscapeAll(Encode(bound))))
  }

  // ----- The TypeScript loops -----

  method UnprojectId(wire: string) returns (text: Option<string>)
    ensures text == UnprojectText(wire)
  {
    var bytes: seq<Byte> := [];
    var i := 0;
    assert wire[0..] == wire;
    while i < |wire|
      invariant 0 <= i <= |wire|
      invariant bytes + IdBytes(wire[i..]) == IdBytes(wire)
    {
      var ch := wire[i];
      ghost var w, before := wire[i..], bytes;
      Next(wire, i);
      if IsLeadChar(ch) && i + 2 < |wire| && IsHexChar(wire[i + 1]) && IsHexChar(wire[i + 2]) {
        assert w[1] == wire[i + 1] && w[2] == wire[i + 2] && w[3..] == wire[i + 3..];
        var value: Byte := HexCharValue(wire[i + 1]) * 16 + HexCharValue(wire[i + 2]);
        bytes := bytes + [value];
        Assoc(before, [value], IdBytes(wire[i + 3..]));
        i := i + 3;
      } else {
        assert !AtEscapeText(w);
        bytes := bytes + EncodeChar(ch);
        Assoc(before, EncodeChar(ch), IdBytes(wire[i + 1..]));
        i := i + 1;
      }
    }
    assert wire[i..] == "" && bytes + [] == bytes;
    text := DecodeText(bytes);
  }

  method ProjectId(id: string) returns (out: Option<string>)
    ensures out == ProjectText(id)
  {
    var bound := Some(id);
    if '/' !in id && HasEscapedSlashText(id) {
      bound := UnprojectId(id);
    }
    if bound.None? { return None; }
    var text := EscapeBytes(Encode(bound.value));
    out := Some(text);
  }

  /** The loop of the projection. */
  method EscapeBytes(bytes: seq<Byte>) returns (text: string)
    ensures IsAscii(EscapeAll(bytes)) && text == AsText(EscapeAll(bytes))
  {
    EscapedIsAscii(bytes);
    text := "";
    assert bytes[0..] == bytes;
    for i := 0 to |bytes|
      invariant IsAscii(EscapeAll(bytes[i..]))
      invariant text + AsText(EscapeAll(bytes[i..])) == AsText(EscapeAll(bytes))
    {
      var b := bytes[i];
      Next(bytes, i);
      EscapeOneMore(text, b, bytes[i + 1..]);
      if IsPassthrough(b) {
        text := text + [b as char];
      } else {
        text := text + ['~', HexDigit(b / 16) as char, HexDigit(b % 16) as char];
      }
    }
    assert bytes[|bytes|..] == [] && text + AsText(EscapeAll([])) == text;
  }

  lemma EscapeOneMore(text: string, b: Byte, rest: seq<Byte>)
    ensures IsAscii(EscapeAll([b] + rest)) && IsAscii(EscapeAll(rest))
    ensures
      var piece := if IsPassthrough(b) then [b as char] else ['~', HexDigit(b / 16) as char, HexDigit(b % 16) as char];
      text + AsText(EscapeAll([b] + rest)) == text + piece + AsText(EscapeAll(rest))
  {
    EscapedIsAscii([b] + rest);
    EscapedIsAscii(rest);
    EscapeAllCons(b, rest);
    var piece := if IsPassthrough(b) then [b as char] else ['~', HexDigit(b / 16) as char, HexDigit(b % 16) as char];
    assert AsText(Escape(b) + EscapeAll(rest)) == piece + AsText(EscapeAll(rest));
    Assoc(text, piece, AsText(EscapeAll(rest)));
  }

  // ----- Agreement with the bytes -----

  lemma AsciiByte(c: char)
    ensures c as int < 0x80 ==> EncodeChar(c) == [c as int]
    ensures c as int >= 0x80 ==> EncodeChar(c)[0] >= 0x80
  {
  }

  /** Two characters open a text with hex digits exactly when two bytes open its encoding with them. */
  lemma FirstByte(s: string)
    ensures s == "" <==> Encode(s) == []
    ensures s != "" && s[0] as int < 0x80 ==> Encode(s)[0] == s[0] as int && Encode(s)[1..] == Encode(s[1..])
    ensures s != "" && s[0] as int >= 0x80 ==> Encode(s)[0] >= 0x80
  {
    if s != "" { AsciiByte(s[0]); }
  }

  lemma HexAgrees(c: char)
    ensures IsHexChar(c) ==> c as int < 0x80 && IsHex(c as int) && HexValue(c as int) == HexCharValue(c)
    ensures c as int < 0x80 && IsHex(c as int) ==> IsHexChar(c)
    ensures IsLeadChar(c) <==> c as int < 0x80 && IsLead(c as int)
  {
  }

  lemma EscapeAgrees(w: string)
    ensures AtEscape(Encode(w)) <==> AtEscapeText(w)
    ensures AtEscapeText(w) ==>
              && HexValue(Encode(w)[1]) == HexCharValue(w[1]) && HexValue(Encode(w)[2]) == HexCharValue(w[2])
              && Encode(w)[3..] == Encode(w[3..])
  {
    var b := Encode(w);
    FirstByte(w);
    if w != "" && IsLeadChar(w[0]) {
      HexAgrees(w[0]);
      FirstByte(w[1..]);
      assert b[1..] == Encode(w[1..]);
      if |w| >= 2 {
        HexAgrees(w[1]);
        if w[1] as int < 0x80 {
          assert w[1..][1..] == w[2..];
          FirstByte(w[2..]);
          assert b[2..] == b[1..][1..] == Encode(w[2..]);
          if |w| >= 3 {
            HexAgrees(w[2]);
            assert w[2..][1..] == w[3..] && b[2..][1..] == b[3..];
          }
        }
      }
    } else if w != "" {
      HexAgrees(w[0]);
    }
  }

  /** High bytes pass through unprojection one by one. */
  lemma {:induction false} HighBytesPass(high: seq<Byte>, rest: seq<Byte>)
    requires forall i | 0 <= i < |high| :: high[i] >= 0x80
    ensures Unproject(high + rest) == high + Unproject(rest)
  {
    if high == [] {
      assert high + rest == rest && high + Unproject(rest) == Unproject(rest);
    } else {
      var w := high + rest;
      assert w[0] == high[0] && w[1..] == high[1..] + rest;
      HighBytesPass(high[1..], rest);
      Assoc([high[0]], high[1..], Unproject(rest));
      assert [high[0]] + high[1..] == high;
    }
  }

  /** Scanning characters and scanning bytes find the same escapes. */
  lemma {:induction false} ScansAgree(w: string)
    ensures IdBytes(w) == Unproject(Encode(w))
    decreases |w|
  {
    if w != "" {
      EscapeAgrees(w);
      var c, b := w[0], Encode(w);
      if AtEscapeText(w) {
        ScansAgree(w[3..]);
      } else {
        ScansAgree(w[1..]);
        if c as int < 0x80 {
          FirstByte(w);
          AsciiByte(c);
        } else {
          HighBytes(c);
          forall i | 0 <= i < |EncodeChar(c)| ensures EncodeChar(c)[i] >= 0x80 {
            assert EncodeChar(c)[i] in EncodeChar(c);
          }
          HighBytesPass(EncodeChar(c), Encode(w[1..]));
        }
      }
    }
  }

  lemma {:induction false} SlashAgrees(s: string)
    ensures '/' in s <==> HasSlash(Encode(s))
  {
    if s != "" {
      SlashAgrees(s[1..]);
      AsciiByte(s[0]);
      assert s == [s[0]] + s[1..];
      if s[0] as int >= 0x80 { HighBytes(s[0]); }
    }
  }

  lemma {:induction false} HighBytesHideNoSlash(high: seq<Byte>, rest: seq<Byte>)
    requires forall i | 0 <= i < |high| :: high[i] >= 0x80
    ensures HasEscapedSlash(high + rest) == HasEscapedSlash(rest)
  {
    if high == [] {
      assert high + rest == rest;
    } else {
      ConcatTail(high, rest);
      SkipByte(high + rest);
      HighBytesHideNoSlash(high[1..], rest);
    }
  }

  lemma {:induction false} EscapedSlashAgrees(w: string)
    ensures HasEscapedSlashText(w) <==> HasEscapedSlash(Encode(w))
    decreases |w|
  {
    if w != "" {
      EscapedSlashAgrees(w[1..]);
      var c, b := w[0], Encode(w);
      FirstByte(w);
      HexAgrees(c);
      if c as int >= 0x80 {
        HighBytes(c);
        forall i | 0 <= i < |EncodeChar(c)| ensures EncodeChar(c)[i] >= 0x80 {
          assert EncodeChar(c)[i] in EncodeChar(c);
        }
        HighBytesHideNoSlash(EncodeChar(c), Encode(w[1..]));
        ShortHasNone(w);
      } else if !IsLeadChar(c) {
        SkipByte(b);
        ShortHasNone(w);
      } else {
        EscapeAgrees(w);
        SlashAfterLead(w);
      }
    }
  }

  lemma ShortHasNone(w: string)
    requires w != "" && !IsLeadChar(w[0])
    ensures HasEscapedSlashText(w) == HasEscapedSlashText(w[1..])
  {
  }

  lemma SlashAfterLead(w: string)
    requires w != "" && IsLeadChar(w[0])
    requires HasEscapedSlashText(w[1..]) <==> HasEscapedSlash(Encode(w[1..]))
    ensures HasEscapedSlashText(w) <==> HasEscapedSlash(Encode(w))
  {
    var b := Encode(w);
    FirstByte(w);
    EscapeAgrees(w);
    HexAgrees(w[0]);
    if AtEscapeText(w) {
      HexAgrees(w[1]);
      HexAgrees(w[2]);
      FirstByte(w[1..]);
      assert w[1..][1..] == w[2..];
      FirstByte(w[2..]);
      assert b[1..][0] == w[1] as int && b[1..][1..] == b[2..] && b[2..][0] == w[2] as int;
    }
  }

  /** The ids on which the two SDKs agree: not decoded first, or decoded to valid UTF-8 without a mark in front. */
  predicate Portable(id: string) {
    var wire := Encode(id);
    IsWireForm(wire) ==> Decode(Unproject(wire)).Some? && !StartsWithBom(Unproject(wire))
  }

  /** TypeScript's projection is Go's projection of the UTF-8 bytes, exactly on portable ids. */
  lemma ProjectionsAgree(id: string)
    ensures Portable(id) <==> ProjectText(id).Some? && Encode(ProjectText(id).value) == Project(Encode(id))
  {
    var wire := Encode(id);
    SlashAgrees(id);
    EscapedSlashAgrees(id);
    ScansAgree(id);
    var bound := BoundText(id);
    if bound.Some? {
      EscapedIsAscii(Encode(bound.value));
      AsTextEncodes(EscapeAll(Encode(bound.value)));
      if IsWireForm(wire) {
        var b := Unproject(wire);
        EncodeDecode(if StartsWithBom(b) then b[3..] else b);
        UnprojectEscapeAll(Encode(bound.value));
        UnprojectEscapeAll(b);
        if StartsWithBom(b) {
          assert Encode(bound.value) == b[3..] && |b[3..]| < |b|;
        } else {
          assert Encode(bound.value) == b;
        }
      }
    }
  }

  /** A leading byte order mark is dropped, and nothing else is. */
  lemma DecodesExactly(b: seq<Byte>)
    ensures DecodeText([0xEF, 0xBB, 0xBF] + b) == Decode(b)
    ensures (|b| < 3 || b[0] != 0xEF || b[1] != 0xBB || b[2] != 0xBF) ==> DecodeText(b) == Decode(b)
  {
    var m: seq<Byte> := [0xEF, 0xBB, 0xBF] + b;
    assert m[..3] == [0xEF, 0xBB, 0xBF] && m[3..] == b;
    if |b| >= 3 && b[..3] == [0xEF, 0xBB, 0xBF] {
      assert b[0] == b[..3][0] && b[1] == b[..3][1] && b[2] == b[..3][2];
    }
  }
}
