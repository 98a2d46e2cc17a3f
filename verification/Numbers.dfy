/** Decimal text and 64-bit arithmetic. */
module Numbers {
  import opened Json

  const TWO_63: int := 0x8000_0000_0000_0000
  const TWO_64: int := 0x1_0000_0000_0000_0000

  predicate IsInt64(x: int) {
    -TWO_63 <= x < TWO_63
  }

  /** The value a signed 64-bit register holds after an operation whose exact result is `x`. */
  function Wrap64(x: int): (r: int)
    ensures IsInt64(r)
    ensures IsInt64(x) ==> r == x
    ensures (x - r) % TWO_64 == 0
  {
    (x + TWO_63) % TWO_64 - TWO_63
  }

  predicate IsDigit(c: char) {
    '0' <= c <= '9'
  }

  predicate AllDigits(s: string) {
    s != [] && forall c <- s :: IsDigit(c)
  }

  /** The number that a string of ASCII digits denotes. */
  function Decimal(s: string): nat
    requires forall c <- s :: IsDigit(c)
  {
    if s == [] then 0
    else
      var last := s[|s| - 1];
      assert last in s && IsDigit(last);
      Decimal(s[..|s| - 1]) * 10 + (last as int - '0' as int)
  }

  /** Go's strconv.Atoi and strconv.ParseInt(s, 10, 64): an optional sign, then digits, within 64 bits. */
  function ParseInt64(s: string): Option<int> {
    var digits := if s != [] && s[0] in {'+', '-'} then s[1..] else s;
    if !AllDigits(digits) then None
    else
      var magnitude: int := Decimal(digits);
      var n := if s[0] == '-' then -magnitude else magnitude;
      if IsInt64(n) then Some(n) else None
  }

  function DigitChar(n: nat): char
    requires n < 10
  {
    ('0' as int + n) as char
  }

  /** The canonical decimal text of a natural number. */
  function ShowNat(n: nat): string {
    if n < 10 then [DigitChar(n)] else ShowNat(n / 10) + [DigitChar(n % 10)]
  }

  /** Canonical text is all digits and reads back as the number it came from. */
  lemma {:induction false} ShowNatReads(n: nat)
    ensures AllDigits(ShowNat(n))
    ensures Decimal(ShowNat(n)) == n
  {
    if n < 10 {
      var s := ShowNat(n);
      assert s[..|s| - 1] == [];
    } else {
      ShowNatReads(n / 10);
      var s := ShowNat(n);
      assert s[..|s| - 1] == ShowNat(n / 10);
    }
  }

  /** The canonical decimal text of an integer. */
  function ShowInt(n: int): string {
    if n < 0 then "-" + ShowNat(-n) else ShowNat(n)
  }

  /** A 64-bit integer is read back from its canonical text, which holds no full stop. */
  lemma ShowIntReads(n: int)
    requires IsInt64(n)
    ensures ParseInt64(ShowInt(n)) == Some(n)
    ensures '.' !in ShowInt(n)
  {
    var digits := ShowNat(if n < 0 then -n else n);
    ShowNatReads(if n < 0 then -n else n);
    FirstIsDigit(digits);
    if n < 0 {
      assert ShowInt(n)[1..] == digits;
    } else {
      assert ShowInt(n) == digits;
    }
  }

  lemma FirstIsDigit(s: string)
    requires AllDigits(s)
    ensures s[0] !in {'+', '-'} && '.' !in s
  {
    assert s[0] in s && IsDigit(s[0]);
    assert '.' in s ==> IsDigit('.');
  }

  /** Digits with or without a sign are read, within 64 bits. */
  lemma ParsesSigned(digits: string)
    requires AllDigits(digits)
    ensures
      var n: int := Decimal(digits);
      && ParseInt64(digits) == ParseInt64("+" + digits) == (if n < 0x8000_0000_0000_0000 then Some(n) else None)
      && ParseInt64("-" + digits) == (if n <= 0x8000_0000_0000_0000 then Some(-n) else None)
  {
    FirstIsDigit(digits);
    assert ("+" + digits)[1..] == digits && ("-" + digits)[1..] == digits;
  }

  /** Nothing else is. */
  lemma ParsesOnlySigned(s: string)
    requires ParseInt64(s).Some?
    ensures exists d :: AllDigits(d) && (s == d || s == "+" + d || s == "-" + d)
  {
    if s[0] in {'+', '-'} {
      var d := s[1..];
      assert AllDigits(d) && s == [s[0]] + d;
    }
  }

  /** Decimal text is read from the left. */
  lemma DecimalReads()
    ensures Decimal("1205") == 1205 && ShowNat(1205) == "1205"
  {
    assert "1205"[..3] == "120" && "120"[..2] == "12" && "12"[..1] == "1" && "1"[..0] == "";
  }
}
