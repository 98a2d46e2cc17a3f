/** Signing and verifying webhook deliveries. HMAC-SHA256 (section 2 of RFC 2104) is any function of key and message. */
module Webhook {
  import opened Json
  import opened Seqs
  import opened Numbers
  import opened Utf8
  import opened Hex

  type Hmac = (seq<Byte>, seq<Byte>) -> seq<Byte>

  datatype Reason =
    | SignatureMismatch | TimestampExpired | TimestampTooFarInFuture
    | MalformedSigHeader | MalformedTSHeader | UnsupportedAlgorithm

  datatype Outcome = Valid | Invalid(reason: Reason)

  /** A window or clock of 0 asks for the default; a negative window switches the freshness test off. */
  datatype VerifyOptions = VerifyOptions(window: int, nowSeconds: int, algorithm: string)

  const DEFAULT_WINDOW := 300
  const PREFIX: string := "sha256="
  const ALGORITHMS: seq<string> := ["v1"]

  /** The signed message: the canonical decimal timestamp, a full stop, the raw body. */
  function Message(timestamp: int, body: seq<Byte>): seq<Byte> {
    Encode(ShowInt(timestamp) + ".") + body
  }

  function ParseSignatureValue(value: string): Option<string> {
    if !(PREFIX <= value) then None
    else
      var h := value[|PREFIX|..];
      if h == "" || DecodeHex(h).None? then None else Some(h)
  }

  function Window(o: VerifyOptions): int {
    if o.window == 0 then DEFAULT_WINDOW else o.window
  }

  function Now(o: VerifyOptions, clock: int): int {
    if o.nowSeconds == 0 then clock else o.nowSeconds
  }

  /** The age of a delivery, in 64-bit arithmetic. */
  function Age(o: VerifyOptions, clock: int, timestamp: int): int {
    Wrap64(Now(o, clock) - timestamp)
  }

  function Verify(hmac: Hmac, secret: seq<Byte>, signature: string, timestamp: string, body: seq<Byte>,
                  o: VerifyOptions, clock: int): Outcome
  {
    var h := ParseSignatureValue(signature);
    if h.None? then Invalid(MalformedSigHeader)
    else
      var provided := DecodeHex(h.value);
      if provided.None? || provided.value == [] then Invalid(MalformedSigHeader)
      else if o.algorithm != "" && o.algorithm !in ALGORITHMS then Invalid(UnsupportedAlgorithm)
      else
        var t := ParseInt64(timestamp);
        if t.None? || t.value <= 0 then Invalid(MalformedTSHeader)
        else if Window(o) > 0 && Age(o, clock, t.value) > Window(o) then Invalid(TimestampExpired)
        else if Window(o) > 0 && Age(o, clock, t.value) < -Window(o) then Invalid(TimestampTooFarInFuture)
        else if provided.value != hmac(secret, Message(t.value, body)) then Invalid(SignatureMismatch)
        else Valid
  }

  function SignatureHeader(hmac: Hmac, secret: seq<Byte>, timestamp: int, body: seq<Byte>): string {
    PREFIX + EncodeHex(hmac(secret, Message(timestamp, body)))
  }

  // ----- The keyed hash that the program feeds piece by piece -----

  class Mac {
    const hmac: Hmac
    const key: seq<Byte>
    var written: seq<Byte>

    constructor (hmac: Hmac, key: seq<Byte>)
      ensures this.hmac == hmac && this.key == key && written == []
    {
      this.hmac, this.key, written := hmac, key, [];
    }

    method Write(p: seq<Byte>)
      modifies this
      ensures written == old(written) + p
    {
      written := written + p;
    }

    method Sum() returns (sum: seq<Byte>)
      ensures sum == hmac(key, written)
    {
      sum := hmac(key, written);
    }
  }

  method Digest(hmac: Hmac, secret: seq<Byte>, timestamp: int, body: seq<Byte>) returns (sum: seq<Byte>)
    ensures sum == hmac(secret, Message(timestamp, body))
  {
    var mac := new Mac(hmac, secret);
    mac.Write(Encode(ShowInt(timestamp) + "."));
    mac.Write(body);
    assert mac.written == Message(timestamp, body);
    sum := mac.Sum();
  }

  method SignWebhookDelivery(hmac: Hmac, secret: seq<Byte>, timestamp: int, body: seq<Byte>)
    returns (signature: string, stamp: string)
    ensures signature == SignatureHeader(hmac, secret, timestamp, body) && stamp == ShowInt(timestamp)
  {
    var sum := Digest(hmac, secret, timestamp, body);
    signature, stamp := PREFIX + EncodeHex(sum), ShowInt(timestamp);
  }

  method VerifyWebhookSignature(hmac: Hmac, secret: seq<Byte>, signature: string, timestamp: string, body: seq<Byte>,
                                o: VerifyOptions, clock: int) returns (outcome: Outcome)
    ensures outcome == Verify(hmac, secret, signature, timestamp, body, o, clock)
  {
    var h := ParseSignatureValue(signature);
    if h.None? { return Invalid(MalformedSigHeader); }
    var provided := DecodeHex(h.value);
    if provided.None? || |provided.value| == 0 { return Invalid(MalformedSigHeader); }
    if o.algorithm != "" && o.algorithm !in ALGORITHMS { return Invalid(UnsupportedAlgorithm); }
    var t := ParseInt64(timestamp);
    if t.None? || t.value <= 0 { return Invalid(MalformedTSHeader); }
    var window := o.window;
    if window == 0 { window := DEFAULT_WINDOW; }
    if window > 0 {
      var now := o.nowSeconds;
      if now == 0 { now := clock; }
      var delta := Wrap64(now - t.value);
      if delta > window { return Invalid(TimestampExpired); }
      if delta < -window { return Invalid(TimestampTooFarInFuture); }
    }
    var expected := Digest(hmac, secret, t.value, body);
    if provided.value != expected { return Invalid(SignatureMismatch); }
    return Valid;
  }

  // ----- Acceptance -----

  /** A timestamp within the window of the clock, on either side, in true arithmetic. */
  predicate WithinWindow(o: VerifyOptions, clock: int, timestamp: int) {
    Window(o) < 0 || -Window(o) <= Now(o, clock) - timestamp <= Window(o)
  }

  /** A timestamp so far past the clock that the 64-bit age comes round to the window again. */
  predicate WrapsIntoWindow(o: VerifyOptions, clock: int, timestamp: int) {
    Window(o) > 0 && timestamp - Now(o, clock) >= TWO_64 - Window(o)
  }

  /**
   * The freshness test on the 64-bit age gives the answer of true arithmetic exactly when the timestamp is
   * less than a whole turn, bar the window, past the clock. It always is on a clock since 1970.
   */
  lemma FreshnessIsExact(now: int, timestamp: int, window: int)
    requires IsInt64(now) && 0 < timestamp < TWO_63
    ensures 0 < window < TWO_63 ==>
              ((-window <= Wrap64(now - timestamp) <= window) == (-window <= now - timestamp <= window) <==>
               timestamp - now < TWO_64 - window)
    ensures 0 < window < TWO_63 ==>
              (-window <= Wrap64(now - timestamp) <= window <==>
               -window <= now - timestamp <= window || timestamp - now >= TWO_64 - window)
    ensures now >= -1 && window < TWO_63 ==> timestamp - now < TWO_64 - window
  {
    assert Wrap64(now - timestamp) == now - timestamp || Wrap64(now - timestamp) == now - timestamp + TWO_64;
  }

  /**
   * A delivery is accepted exactly when its header is the prefixed hex, in either case, of the keyed hash
   * of its canonical message, its timestamp reads as positive and lies within the window or so far past
   * it that the age overflows into it, and its algorithm is unnamed or v1.
   */
  lemma AcceptedExactly(hmac: Hmac, secret: seq<Byte>, signature: string, timestamp: string, body: seq<Byte>,
                        o: VerifyOptions, clock: int)
    requires forall k, m :: hmac(k, m) != []
    requires IsInt64(Now(o, clock)) && IsInt64(Window(o))
    ensures
      Verify(hmac, secret, signature, timestamp, body, o, clock) == Valid <==>
      exists t: int, h: string ::
        && ParseInt64(timestamp) == Some(t) && t > 0 && (WithinWindow(o, clock, t) || WrapsIntoWindow(o, clock, t))
        && signature == PREFIX + h && DecodeHex(h) == Some(hmac(secret, Message(t, body)))
        && (o.algorithm == "" || o.algorithm == "v1")
  {
    if ParseInt64(timestamp).Some? && ParseInt64(timestamp).value > 0 {
      FreshnessIsExact(Now(o, clock), ParseInt64(timestamp).value, Window(o));
    }
    if Verify(hmac, secret, signature, timestamp, body, o, clock) == Valid {
      assert signature == PREFIX + ParseSignatureValue(signature).value;
    }
    if t: int, h: string :|
      && ParseInt64(timestamp) == Some(t) && t > 0 && (WithinWindow(o, clock, t) || WrapsIntoWindow(o, clock, t))
      && signature == PREFIX + h && DecodeHex(h) == Some(hmac(secret, Message(t, body)))
      && (o.algorithm == "" || o.algorithm == "v1")
    {
      assert signature[|PREFIX|..] == h;
    }
  }

  /** For one: the earliest clock takes the latest timestamp for one of a second ago. */
  lemma AgeCanOverflow()
    ensures
      var o := VerifyOptions(300, -TWO_63, "");
      Age(o, 0, TWO_63 - 1) == 1 && !WithinWindow(o, 0, TWO_63 - 1)
  {
    var o := VerifyOptions(300, -TWO_63, "");
    assert Now(o, 0) - (TWO_63 - 1) == 1 - TWO_64;
    assert Wrap64(1 - TWO_64) == 1;
  }

  /** What is signed at a positive time verifies as long as it is fresh, or so far ahead that its age overflows. */
  lemma SignedVerifies(hmac: Hmac, secret: seq<Byte>, timestamp: int, body: seq<Byte>, o: VerifyOptions, clock: int)
    requires forall k, m :: hmac(k, m) != []
    requires 0 < timestamp < TWO_63 && IsInt64(Now(o, clock)) && IsInt64(Window(o))
    requires o.algorithm == "" || o.algorithm == "v1"
    ensures
      var signature := SignatureHeader(hmac, secret, timestamp, body);
      Verify(hmac, secret, signature, ShowInt(timestamp), body, o, clock) == Valid <==>
      WithinWindow(o, clock, timestamp) || WrapsIntoWindow(o, clock, timestamp)
  {
    var mac := hmac(secret, Message(timestamp, body));
    ShowIntReads(timestamp);
    DecodeEncodeHex(mac);
    var signature := SignatureHeader(hmac, secret, timestamp, body);
    assert signature == PREFIX + EncodeHex(mac) && signature[|PREFIX|..] == EncodeHex(mac);
    AcceptedExactly(hmac, secret, signature, ShowInt(timestamp), body, o, clock);
  }

  // ----- Rejection -----

  /** The header is `sha256=` and the hex of at least one byte. */
  predicate HeaderReads(signature: string) {
    && "sha256=" <= signature && signature != "sha256="
    && DecodeHex(signature[7..]).Some? && DecodeHex(signature[7..]).value != []
  }

  predicate AlgorithmKnown(o: VerifyOptions) {
    o.algorithm == "" || o.algorithm == "v1"
  }

  predicate TimestampReads(timestamp: string) {
    ParseInt64(timestamp).Some? && ParseInt64(timestamp).value > 0
  }

  /** A delivery whose header, algorithm and timestamp can all be read. */
  predicate Readable(signature: string, timestamp: string, o: VerifyOptions) {
    HeaderReads(signature) && AlgorithmKnown(o) && TimestampReads(timestamp)
  }

  /** What cannot be read is refused for the first of header, algorithm and timestamp, in that order. */
  lemma UnreadableExactly(hmac: Hmac, secret: seq<Byte>, signature: string, timestamp: string, body: seq<Byte>,
                          o: VerifyOptions, clock: int)
    ensures
      var outcome := Verify(hmac, secret, signature, timestamp, body, o, clock);
      && (outcome == Invalid(MalformedSigHeader) <==> !HeaderReads(signature))
      && (outcome == Invalid(UnsupportedAlgorithm) <==> HeaderReads(signature) && !AlgorithmKnown(o))
      && (outcome == Invalid(MalformedTSHeader) <==>
          HeaderReads(signature) && AlgorithmKnown(o) && !TimestampReads(timestamp))
  {
    HeaderIsParsed(signature);
  }

  lemma HeaderIsParsed(signature: string)
    ensures
      var h := ParseSignatureValue(signature);
      && (HeaderReads(signature) <==> h.Some? && DecodeHex(h.value).Some? && DecodeHex(h.value).value != [])
      && (h.Some? ==> h.value == signature[7..])
  {
    assert |PREFIX| == 7;
    if "sha256=" <= signature && signature[7..] == "" {
      assert signature == "sha256=";
    }
  }

  /**
   * A readable delivery is expired when it is older than the window, too far ahead when the window does not
   * reach it, and otherwise mismatched when its signature is not the hash; 300 seconds stand for a window of
   * 0, and a negative one switches the test off. A timestamp more than 2^63 seconds ahead of the clock counts
   * as that much less than 2^64 behind it: as expired, unless that brings it into the window.
   */
  lemma RejectedExactly(hmac: Hmac, secret: seq<Byte>, signature: string, timestamp: string, body: seq<Byte>,
                        o: VerifyOptions, clock: int)
    requires Readable(signature, timestamp, o) && IsInt64(Now(o, clock)) && IsInt64(Window(o))
    ensures
      var outcome := Verify(hmac, secret, signature, timestamp, body, o, clock);
      var window := if o.window == 0 then 300 else o.window;
      var age := (if o.nowSeconds == 0 then clock else o.nowSeconds) - ParseInt64(timestamp).value;
      var far := -age > 0x8000_0000_0000_0000;
      var expired := window > 0 && if far then age + 0x1_0000_0000_0000_0000 > window else age > window;
      var ahead := window > 0 && !far && -age > window;
      var matches := DecodeHex(signature[7..]).value == hmac(secret, Message(ParseInt64(timestamp).value, body));
      && (outcome == Invalid(TimestampExpired) <==> expired)
      && (outcome == Invalid(TimestampTooFarInFuture) <==> ahead)
      && (outcome == Invalid(SignatureMismatch) <==> !expired && !ahead && !matches)
      && (outcome == Valid <==> !expired && !ahead && matches)
  {
    HeaderIsParsed(signature);
    var age := Now(o, clock) - ParseInt64(timestamp).value;
    assert Wrap64(age) == if -age > 0x8000_0000_0000_0000 then age + 0x1_0000_0000_0000_0000 else age;
  }

  /** For one: ten minutes old with a window of five is expired, ten minutes ahead is too far ahead. */
  lemma TenMinutes(hmac: Hmac, secret: seq<Byte>, body: seq<Byte>, clock: int)
    requires forall k, m :: hmac(k, m) != []
    requires 0 <= clock < 0x1000_0000_0000
    ensures
      var o := VerifyOptions(300, 1_000_600, "");
      Verify(hmac, secret, SignatureHeader(hmac, secret, 1_000_000, body), ShowInt(1_000_000), body, o, clock) ==
      Invalid(TimestampExpired)
    ensures
      var o := VerifyOptions(300, 1_000_000, "");
      Verify(hmac, secret, SignatureHeader(hmac, secret, 1_000_600, body), ShowInt(1_000_600), body, o, clock) ==
      Invalid(TimestampTooFarInFuture)
  {
    SignedIsReadable(hmac, secret, 1_000_000, body, VerifyOptions(300, 1_000_600, ""));
    SignedIsReadable(hmac, secret, 1_000_600, body, VerifyOptions(300, 1_000_000, ""));
    RejectedExactly(hmac, secret, SignatureHeader(hmac, secret, 1_000_000, body), ShowInt(1_000_000), body,
                    VerifyOptions(300, 1_000_600, ""), clock);
    RejectedExactly(hmac, secret, SignatureHeader(hmac, secret, 1_000_600, body), ShowInt(1_000_600), body,
                    VerifyOptions(300, 1_000_000, ""), clock);
  }

  lemma SignedIsReadable(hmac: Hmac, secret: seq<Byte>, timestamp: int, body: seq<Byte>, o: VerifyOptions)
    requires 0 < timestamp < TWO_63 && hmac(secret, Message(timestamp, body)) != [] && AlgorithmKnown(o)
    ensures Readable(SignatureHeader(hmac, secret, timestamp, body), ShowInt(timestamp), o)
    ensures ParseInt64(ShowInt(timestamp)) == Some(timestamp)
  {
    var mac := hmac(secret, Message(timestamp, body));
    ShowIntReads(timestamp);
    DecodeEncodeHex(mac);
    var signature := SignatureHeader(hmac, secret, timestamp, body);
    assert signature == "sha256=" + EncodeHex(mac) && signature[7..] == EncodeHex(mac);
  }

  // ----- What a signature is bound to -----

  lemma {:induction false} EncodeConcat(s: string, t: string)
    ensures Encode(s + t) == Encode(s) + Encode(t)
  {
    if s == "" {
      Nil(t);
    } else {
      ConcatTail(s, t);
      EncodeConcat(s[1..], t);
    }
  }

  lemma {:induction false} AsciiEncodes(s: string)
    requires forall i | 0 <= i < |s| :: s[i] as int < 0x80
    ensures |Encode(s)| == |s| && forall i | 0 <= i < |s| :: Encode(s)[i] == s[i] as int
  {
    if s != "" {
      AsciiEncodes(s[1..]);
      assert EncodeChar(s[0]) == [s[0] as int];
    }
  }

  /** A stamp is ASCII without a full stop, so its message splits at the first full stop. */
  lemma StampIsAscii(n: int)
    requires IsInt64(n)
    ensures
      var b := Encode(ShowInt(n));
      |b| == |ShowInt(n)| && forall i | 0 <= i < |b| :: b[i] == ShowInt(n)[i] as int && b[i] != 0x2E
  {
    var m := if n < 0 then -n else n;
    ShowNatReads(m);
    ShowIntReads(n);
    forall i | 0 <= i < |ShowInt(n)| ensures ShowInt(n)[i] as int < 0x80 && ShowInt(n)[i] != '.' {
      assert ShowInt(n)[i] in ShowInt(n);
      assert ShowInt(n)[i] == '-' || ShowInt(n)[i] in ShowNat(m);
    }
    AsciiEncodes(ShowInt(n));
  }

  /** The signed message determines the timestamp and the body. */
  lemma MessageIsInjective(t: int, body: seq<Byte>, t': int, body': seq<Byte>)
    requires IsInt64(t) && IsInt64(t') && Message(t, body) == Message(t', body')
    ensures t == t' && body == body'
  {
    var m, a, a' := Message(t, body), Encode(ShowInt(t)), Encode(ShowInt(t'));
    StampIsAscii(t);
    StampIsAscii(t');
    EncodeConcat(ShowInt(t), ".");
    EncodeConcat(ShowInt(t'), ".");
    assert Encode(".") == [0x2E] by { assert EncodeChar('.') == [0x2E]; }
    assert m == a + [0x2E] + body && m == a' + [0x2E] + body';
    assert m[|a|] == 0x2E && m[|a'|] == 0x2E;
    assert forall i | 0 <= i < |a| :: m[i] == a[i] && m[i] != 0x2E;
    assert forall i | 0 <= i < |a'| :: m[i] == a'[i] && m[i] != 0x2E;
    assert |a| == |a'|;
    assert a == m[..|a|] == a' && body == m[|a| + 1..] == body';
    assert ShowInt(t) == ShowInt(t');
    ShowIntReads(t);
    ShowIntReads(t');
  }

  /** Up to its first full stop the message is the decimal timestamp, and after it the body. */
  lemma MessageSplits(t: int, body: seq<Byte>, i: nat)
    requires IsInt64(t) && i < |Message(t, body)| && Message(t, body)[i] == '.' as int
    requires forall j | 0 <= j < i :: Message(t, body)[j] != '.' as int
    ensures Message(t, body)[i + 1..] == body && Message(t, body)[..i] == Encode(ShowInt(t)) && i == |ShowInt(t)|
  {
    var a := Encode(ShowInt(t));
    StampIsAscii(t);
    EncodeConcat(ShowInt(t), ".");
    assert Encode(".") == [0x2E] by { assert EncodeChar('.') == [0x2E]; }
    assert Message(t, body) == a + [0x2E] + body;
    assert Message(t, body)[|a|] == 0x2E;
    assert forall j | 0 <= j < |a| :: Message(t, body)[j] == a[j] && a[j] != 0x2E;
  }

  /** A signature that verifies for another timestamp or body than it was made for is a collision of the hash. */
  lemma ReplayNeedsCollision(hmac: Hmac, secret: seq<Byte>, timestamp: int, body: seq<Byte>,
                             stamp: string, body': seq<Byte>, o: VerifyOptions, clock: int)
    requires IsInt64(timestamp)
    requires Verify(hmac, secret, SignatureHeader(hmac, secret, timestamp, body), stamp, body', o, clock) == Valid
    requires ParseInt64(stamp) != Some(timestamp) || body' != body
    ensures ParseInt64(stamp).Some?
    ensures
      var m, m' := Message(timestamp, body), Message(ParseInt64(stamp).value, body');
      m != m' && hmac(secret, m) == hmac(secret, m')
  {
    var mac := hmac(secret, Message(timestamp, body));
    DecodeEncodeHex(mac);
    var signature := SignatureHeader(hmac, secret, timestamp, body);
    assert signature[|PREFIX|..] == EncodeHex(mac);
    var t' := ParseInt64(stamp).value;
    if Message(timestamp, body) == Message(t', body') {
      MessageIsInjective(timestamp, body, t', body');
    }
  }
}
