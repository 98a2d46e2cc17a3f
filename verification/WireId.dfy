/** The tenant-bound id wire form: projection and its inverse, on bytes (Go) and on text (TypeScript). */
module WireId {
  import opened Seqs
  import opened Utf8

  const TILDE: Byte := 0x7E
  const PERCENT: Byte := 0x25
  const SLASH: Byte := 0x2F
  const TWO: Byte := 0x32

  predicate IsPassthrough(b: Byte) {
    0x41 <= b <= 0x5A || 0x61 <= b <= 0x7A || 0x30 <= b <= 0x39 || b == 0x2E || b == 0x5F || b == 0x2D
  }

  predicate IsLead(b: Byte) {
    b == TILDE || b == PERCENT
  }

  predicate IsHex(b: Byte) {
    0x30 <= b <= 0x39 || 0x41 <= b <= 0x46 || 0x61 <= b <= 0x66
  }

  function HexValue(b: Byte): (v: nat)
    requires IsHex(b)
    ensures v < 16
  {
    if b <= 0x39 then b - 0x30 else if b <= 0x46 then b - 0x41 + 10 else b - 0x61 + 10
  }

  function HexDigit(v: nat): Byte
    requires v < 16
  {
    if v < 10 then 0x30 + v else 0x41 + v - 10
  }

  /** An escape stands at the start of `w`: a lead byte and two hex digits. */
  predicate AtEscape(w: seq<Byte>) {
    |w| >= 3 && IsLead(w[0]) && IsHex(w[1]) && IsHex(w[2])
  }

  function Unproject(w: seq<Byte>): seq<Byte>
    decreases |w|
  {
    if w == [] then []
    else if AtEscape(w) then [HexValue(w[1]) * 16 + HexValue(w[2])] + Unproject(w[3..])
    else [w[0]] + Unproject(w[1..])
  }

  function Escape(b: Byte): seq<Byte> {
    if IsPassthrough(b) then [b] else [TILDE, HexDigit(b / 16), HexDigit(b % 16)]
  }

  function EscapeAll(x: seq<Byte>): seq<Byte> {
    if x == [] then [] else Escape(x[0]) + EscapeAll(x[1..])
  }

  predicate HasSlash(x: seq<Byte>) {
    SLASH in x
  }

  /** Somewhere in `x` stands `~2F` or `%2F`, in either case. */
  predicate HasEscapedSlash(x: seq<Byte>)
    decreases |x|
  {
    |x| >= 3 && ((IsLead(x[0]) && x[1] == TWO && x[2] in {0x46, 0x66}) || HasEscapedSlash(x[1..]))
  }

  /** An id without `/` but with an escaped one is taken for a wire form already. */
  predicate IsWireForm(x: seq<Byte>) {
    !HasSlash(x) && HasEscapedSlash(x)
  }

  function Bound(x: seq<Byte>): seq<Byte> {
    if IsWireForm(x) then Unproject(x) else x
  }

  function Project(x: seq<Byte>): seq<Byte> {
    EscapeAll(Bound(x))
  }

  // ----- Small steps -----

  /** The two digits written for a byte are hex and read back as the byte. */
  lemma HexReads(b: Byte)
    ensures IsHex(HexDigit(b / 16)) && IsHex(HexDigit(b % 16))
    ensures HexValue(HexDigit(b / 16)) * 16 + HexValue(HexDigit(b % 16)) == b
  {
    HexDigitReads(b / 16);
    HexDigitReads(b % 16);
  }

  lemma HexDigitReads(v: nat)
    requires v < 16
    ensures IsHex(HexDigit(v)) && HexValue(HexDigit(v)) == v
    ensures IsPassthrough(HexDigit(v)) && !IsLead(HexDigit(v))
    ensures HexDigit(v) == TWO <==> v == 2
    ensures HexDigit(v) in {0x46, 0x66} <==> v == 15
  {
  }

  lemma EscapeAllCons(b: Byte, x: seq<Byte>)
    ensures EscapeAll([b] + x) == Escape(b) + EscapeAll(x)
  {
    assert ([b] + x)[1..] == x;
  }

  /** An escape is read as one byte, whatever follows. */
  lemma UnprojectOne(b: Byte, rest: seq<Byte>)
    ensures Unproject(Escape(b) + rest) == [b] + Unproject(rest)
  {
    var w := Escape(b) + rest;
    if IsPassthrough(b) {
      assert w[0] == b && w[1..] == rest;
    } else {
      HexReads(b);
      assert w[0] == TILDE && w[1] == HexDigit(b / 16) && w[2] == HexDigit(b % 16) && w[3..] == rest;
    }
  }

  /** A byte that is no lead starts no escaped slash. */
  lemma SkipByte(w: seq<Byte>)
    requires w != [] && !IsLead(w[0])
    ensures HasEscapedSlash(w) == HasEscapedSlash(w[1..])
  {
  }

  /** Two hex digits are skipped when looking for an escaped slash. */
  lemma SkipEscape(w: seq<Byte>)
    requires AtEscape(w)
    ensures HasEscapedSlash(w) <==> (w[1] == TWO && w[2] in {0x46, 0x66}) || HasEscapedSlash(w[3..])
  {
    var v, u := w[1..], w[2..];
    assert v[0] == w[1] && v[1..] == u && u[0] == w[2] && u[1..] == w[3..];
    SkipByte(v);
    SkipByte(u);
  }

  // ----- The Go loops -----

  method UnprojectID(wire: seq<Byte>) returns (out: seq<Byte>)
    ensures out == Unproject(wire)
  {
    out := [];
    var i := 0;
    assert wire[0..] == wire;
    while i < |wire|
      invariant 0 <= i <= |wire|
      invariant out + Unproject(wire[i..]) == Unproject(wire)
    {
      var c := wire[i];
      ghost var w := wire[i..];
      Next(wire, i);
      if IsLead(c) && i + 2 < |wire| && IsHex(wire[i + 1]) && IsHex(wire[i + 2]) {
        assert w[1] == wire[i + 1] && w[2] == wire[i + 2] && w[3..] == wire[i + 3..];
        var value: Byte := HexValue(wire[i + 1]) * 16 + HexValue(wire[i + 2]);
        Assoc(out, [value], Unproject(wire[i + 3..]));
        out := out + [value];
        i := i + 3;
      } else {
        assert !AtEscape(w);
        Assoc(out, [c], Unproject(wire[i + 1..]));
        out := out + [c];
        i := i + 1;
      }
    }
  }

  method ProjectID(id: seq<Byte>) returns (out: seq<Byte>)
    ensures out == Project(id)
  {
    var bound := id;
    if !HasSlash(id) && HasEscapedSlash(id) {
      bound := UnprojectID(id);
    }
    out := [];
    assert bound[0..] == bound;
    for i := 0 to |bound|
      invariant out + EscapeAll(bound[i..]) == EscapeAll(bound)
    {
      var c := bound[i];
      Next(bound, i);
      EscapeAllCons(c, bound[i + 1..]);
      ghost var before := out;
      if IsPassthrough(c) {
        out := out + [c];
      } else {
        out := out + [TILDE, HexDigit(c / 16), HexDigit(c % 16)];
      }
      assert out == before + Escape(c);
      Assoc(before, Escape(c), EscapeAll(bound[i + 1..]));
    }
  }

  // ----- Round trip -----

  /** Unprojecting undoes escaping, whatever the bytes. */
  lemma {:induction false} UnprojectEscaped(x: seq<Byte>, rest: seq<Byte>)
    ensures Unproject(EscapeAll(x) + rest) == x + Unproject(rest)
  {
    if x == [] {
      assert EscapeAll(x) + rest == rest && x + Unproject(rest) == Unproject(rest);
    } else {
      var later := EscapeAll(x[1..]) + rest;
      Assoc(Escape(x[0]), EscapeAll(x[1..]), rest);
      UnprojectOne(x[0], later);
      UnprojectEscaped(x[1..], rest);
      Assoc([x[0]], x[1..], Unproject(rest));
      assert [x[0]] + x[1..] == x;
    }
  }

  lemma UnprojectEscapeAll(x: seq<Byte>)
    ensures Unproject(EscapeAll(x)) == x
  {
    UnprojectEscaped(x, []);
    assert EscapeAll(x) + [] == EscapeAll(x) && x + [] == x;
  }

  lemma {:induction false} UnprojectLength(w: seq<Byte>)
    ensures |Unproject(w)| <= |w|
    ensures HasEscapedSlash(w) ==> |Unproject(w)| < |w| && SLASH in Unproject(w)
    decreases |w|
  {
    if w != [] {
      if AtEscape(w) {
        UnprojectLength(w[3..]);
        SkipEscape(w);
      } else {
        UnprojectLength(w[1..]);
      }
    }
  }

  /** Unprojecting a projection gives the id back exactly when the id was not itself taken for a wire form. */
  lemma RoundTrip(x: seq<Byte>)
    ensures Unproject(Project(x)) == Bound(x)
    ensures Unproject(Project(x)) == x <==> HasSlash(x) || !HasEscapedSlash(x)
  {
    UnprojectEscapeAll(Bound(x));
    UnprojectLength(x);
  }

  /** Two ids that contain `/` never share a wire form. */
  lemma ProjectionIsInjective(x: seq<Byte>, y: seq<Byte>)
    requires HasSlash(x) && HasSlash(y) && Project(x) == Project(y)
    ensures x == y
  {
    RoundTrip(x);
    RoundTrip(y);
  }

  // ----- The shape of the output -----

  function CountEscaped(x: seq<Byte>): nat {
    if x == [] then 0 else (if IsPassthrough(x[0]) then 0 else 1) + CountEscaped(x[1..])
  }

  /** The wire form needs no quoting in a path segment, and every escaped byte costs two more. */
  lemma {:induction false} EscapedShape(x: seq<Byte>)
    ensures |EscapeAll(x)| == |x| + 2 * CountEscaped(x)
    ensures forall b <- EscapeAll(x) :: IsPassthrough(b) || b == TILDE
  {
    if x != [] { EscapedShape(x[1..]); }
  }

  // ----- Idempotence -----

  lemma {:induction false} EscapedSlashIff(x: seq<Byte>)
    ensures HasEscapedSlash(EscapeAll(x)) <==> HasSlash(x)
  {
    if x != [] {
      EscapedSlashIff(x[1..]);
      var b, w, later := x[0], EscapeAll(x), EscapeAll(x[1..]);
      assert x == [b] + x[1..];
      if IsPassthrough(b) {
        assert w[1..] == later;
        SkipByte(w);
      } else {
        HexDigitReads(b / 16);
        HexDigitReads(b % 16);
        assert w[1] == HexDigit(b / 16) && w[2] == HexDigit(b % 16) && w[3..] == later;
        SkipEscape(w);
      }
    }
  }

  lemma {:induction false} EscapeFixes(x: seq<Byte>)
    ensures |EscapeAll(x)| >= |x|
    ensures EscapeAll(x) == x <==> forall b <- x :: IsPassthrough(b)
  {
    if x != [] {
      EscapeFixes(x[1..]);
      EscapedShape(x);
      assert x == [x[0]] + x[1..];
      if IsPassthrough(x[0]) {
        assert EscapeAll(x)[1..] == EscapeAll(x[1..]);
      } else {
        EscapedShape(x);
        assert x[0] in x && CountEscaped(x) > 0;
      }
    }
  }

  /**
   * Projecting twice is projecting once exactly for ids with a slash, escaped or not, and for ids that
   * need no escape at all.
   */
  lemma ProjectTwice(x: seq<Byte>)
    ensures Project(Project(x)) == Project(x) <==>
            HasSlash(x) || HasEscapedSlash(x) || forall b <- x :: IsPassthrough(b)
  {
    var b := Bound(x);
    var w := EscapeAll(b);
    UnprojectLength(x);
    EscapedSlashIff(b);
    EscapedShape(b);
    assert !HasSlash(w);
    UnprojectEscapeAll(b);
    if !HasSlash(b) {
      EscapeFixes(w);
      EscapeFixes(b);
      UnprojectEscapeAll(w);
      if EscapeAll(w) == w { assert w == b; }
    }
  }

  // ----- Legacy percent-encoded forms -----

  /** `y` percent-encodes `x`: every `/`, `%` and `~`, and any other byte it likes, in hex of either case. */
  ghost predicate PercentEncodes(y: seq<Byte>, x: seq<Byte>)
    decreases |x|
  {
    if x == [] then y == []
    else
      || (|y| >= 1 && y[0] == x[0] && x[0] != SLASH && !IsLead(x[0]) && PercentEncodes(y[1..], x[1..]))
      || (|y| >= 3 && y[0] == PERCENT && IsHex(y[1]) && IsHex(y[2])
          && HexValue(y[1]) * 16 + HexValue(y[2]) == x[0] && PercentEncodes(y[3..], x[1..]))
  }

  lemma {:induction false} PercentDecodes(y: seq<Byte>, x: seq<Byte>)
    requires PercentEncodes(y, x)
    ensures Unproject(y) == x && !HasSlash(y)
    ensures HasSlash(x) ==> HasEscapedSlash(y)
    decreases |x|
  {
    if x != [] {
      assert x == [x[0]] + x[1..];
      if |y| >= 1 && y[0] == x[0] && x[0] != SLASH && !IsLead(x[0]) && PercentEncodes(y[1..], x[1..]) {
        PercentDecodes(y[1..], x[1..]);
        assert y == [y[0]] + y[1..];
      } else {
        PercentDecodes(y[3..], x[1..]);
        assert y == [y[0], y[1], y[2]] + y[3..];
        assert y[1..][1..] == y[2..] && y[2..][1..] == y[3..];
      }
    }
  }

  /** Every legacy form of a bound id is projected to the wire form of the id itself. */
  lemma LegacyFormsConverge(y: seq<Byte>, x: seq<Byte>)
    requires HasSlash(x) && PercentEncodes(y, x)
    ensures Project(y) == Project(x)
  {
    PercentDecodes(y, x);
  }

  // ----- The alphabet, written out -----

  /** Letters, digits, `.`, `_` and `-`. */
  predicate IsUnreserved(b: Byte) {
    var c := b as char;
    'A' <= c <= 'Z' || 'a' <= c <= 'z' || '0' <= c <= '9' || c in {'.', '_', '-'}
  }

  const UPPER_DIGITS: string := "0123456789ABCDEF"
  const LOWER_DIGITS: string := "0123456789abcdef"

  /** The bytes outside the alphabet. */
  function Reserved(x: seq<Byte>): seq<Byte> {
    if x == [] then [] else (if IsUnreserved(x[0]) then [] else [x[0]]) + Reserved(x[1..])
  }

  lemma HexDigitsExactly(v: nat)
    requires v < 16
    ensures HexDigit(v) == UPPER_DIGITS[v] as int
    ensures
      var upper, lower: Byte := UPPER_DIGITS[v] as int, LOWER_DIGITS[v] as int;
      IsHex(upper) && HexValue(upper) == v && IsHex(lower) && HexValue(lower) == v
  {
  }

  /** One byte: itself when it is in the alphabet, else `~` and two upper-case hex digits. */
  lemma EscapeExactly(b: Byte)
    ensures IsUnreserved(b) ==> EscapeAll([b]) == [b]
    ensures !IsUnreserved(b) ==>
              EscapeAll([b]) == ['~' as int, UPPER_DIGITS[b / 16] as int, UPPER_DIGITS[b % 16] as int]
  {
    Cons(b, []);
    Nil(Escape(b));
    assert (b as char) as int == b;
    HexDigitsExactly(b / 16);
    HexDigitsExactly(b % 16);
  }

  lemma {:induction false} EscapeAllConcat(x: seq<Byte>, y: seq<Byte>)
    ensures EscapeAll(x + y) == EscapeAll(x) + EscapeAll(y)
  {
    if x == [] {
      Nil(y);
      Nil(EscapeAll(y));
    } else {
      ConcatTail(x, y);
      EscapeAllConcat(x[1..], y);
      Assoc(Escape(x[0]), EscapeAll(x[1..]), EscapeAll(y));
    }
  }

  lemma DigitsAreUnreserved(b: Byte)
    ensures forall c <- EscapeAll([b]) :: IsUnreserved(c) || c == '~' as int
  {
    EscapeExactly(b);
    assert forall v: nat | v < 16 :: 'A' <= UPPER_DIGITS[v] <= 'F' || '0' <= UPPER_DIGITS[v] <= '9';
  }

  /** An escape never stands for itself. */
  lemma EscapedFirst(b: Byte, x: seq<Byte>)
    requires |EscapeAll(x)| >= |x|
    ensures EscapeAll([b]) + EscapeAll(x) == [b] + x <==> IsUnreserved(b) && EscapeAll(x) == x
  {
    EscapeExactly(b);
    var w := EscapeAll([b]) + EscapeAll(x);
    if w == [b] + x {
      assert |w| == 1 + |x|;
      assert EscapeAll(x) == w[1..];
    }
  }

  /**
   * Escaping leaves exactly the ids of letters, digits, `.`, `_` and `-` alone, writes nothing but those and
   * `~`, and makes two more bytes of every byte outside the alphabet.
   */
  lemma {:induction false} EscapedAlphabet(x: seq<Byte>)
    ensures EscapeAll(x) == x <==> forall b <- x :: IsUnreserved(b)
    ensures forall b <- EscapeAll(x) :: IsUnreserved(b) || b == '~' as int
    ensures |EscapeAll(x)| == |x| + 2 * |Reserved(x)|
    ensures Reserved(x) == [] <==> forall b <- x :: IsUnreserved(b)
  {
    if x != [] {
      EscapedAlphabet(x[1..]);
      EscapeExactly(x[0]);
      HeadTail(x);
      EscapeAllConcat([x[0]], x[1..]);
      DigitsAreUnreserved(x[0]);
      EscapedFirst(x[0], x[1..]);
    }
  }

  /** An escape with either lead byte and digits of either case is read as its byte; any other byte as itself. */
  lemma UnprojectExactly(lead: char, high: nat, low: nat, upper: bool, rest: seq<Byte>)
    requires lead in {'~', '%'} && high < 16 && low < 16
    ensures
      var digits := if upper then UPPER_DIGITS else LOWER_DIGITS;
      Unproject([lead as int, digits[high] as int, digits[low] as int] + rest) == [high * 16 + low] + Unproject(rest)
  {
    var digits := if upper then UPPER_DIGITS else LOWER_DIGITS;
    HexDigitsExactly(high);
    HexDigitsExactly(low);
    var h, l: Byte := digits[high] as int, digits[low] as int;
    UnprojectEscape(lead as int, h, l, rest);
  }

  lemma UnprojectEscape(lead: Byte, h: Byte, l: Byte, rest: seq<Byte>)
    requires IsLead(lead) && IsHex(h) && IsHex(l)
    ensures Unproject([lead, h, l] + rest) == [HexValue(h) * 16 + HexValue(l)] + Unproject(rest)
  {
    assert ([lead, h, l] + rest)[3..] == rest;
  }

  lemma UnprojectOther(b: Byte, rest: seq<Byte>)
    requires b as char !in {'~', '%'}
    ensures Unproject([b] + rest) == [b] + Unproject(rest)
  {
    Cons(b, rest);
  }

  /** At position `i` stands `~2F`, `%2F`, `~2f` or `%2f`. */
  predicate SlashEscapedAt(x: seq<Byte>, i: int) {
    && 0 <= i < |x| - 2
    && x[i] as char in {'~', '%'} && x[i + 1] as char == '2' && x[i + 2] as char in {'F', 'f'}
  }

  lemma {:induction false} EscapedSlashExactly(x: seq<Byte>)
    ensures HasEscapedSlash(x) <==> exists i :: SlashEscapedAt(x, i)
  {
    if |x| >= 3 {
      EscapedSlashExactly(x[1..]);
      assert SlashEscapedAt(x, 0) <==> IsLead(x[0]) && x[1] == TWO && x[2] in {0x46, 0x66};
      if i :| SlashEscapedAt(x[1..], i) {
        assert SlashEscapedAt(x, i + 1);
      }
      if i :| SlashEscapedAt(x, i) && i > 0 {
        assert SlashEscapedAt(x[1..], i - 1);
      }
    }
  }

  /** Which ids are unprojected first. */
  lemma ProjectsExactly(x: seq<Byte>)
    ensures
      Project(x) ==
      if '/' as int !in x && exists i :: SlashEscapedAt(x, i) then EscapeAll(Unproject(x)) else EscapeAll(x)
  {
    EscapedSlashExactly(x);
  }

  lemma UnreservedIsKept(x: seq<Byte>)
    requires forall b <- x :: IsUnreserved(b)
    ensures EscapeAll(x) == x
  {
    EscapedAlphabet(x);
  }

  /** The form of a tenant-bound id: `acme/r-9f3c` is written `acme~2Fr-9f3c`. */
  lemma TenantBound(tenant: seq<Byte>, id: seq<Byte>)
    requires (forall b <- tenant :: IsUnreserved(b)) && forall b <- id :: IsUnreserved(b)
    ensures Project(tenant + ['/' as int] + id) == tenant + ['~' as int, '2' as int, 'F' as int] + id
  {
    var x := tenant + ['/' as int] + id;
    assert x[|tenant|] == SLASH && HasSlash(x);
    UnreservedIsKept(tenant);
    UnreservedIsKept(id);
    EscapeExactly('/' as int);
    EscapeAllConcat(tenant + ['/' as int], id);
    EscapeAllConcat(tenant, ['/' as int]);
  }
}
