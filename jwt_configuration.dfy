/**
 * The `JwtConfigration` section and the values derived from it: the key
 * bytes, the expiry instant and the expiry in milliseconds.
 */
module JwtOptions {
  import opened Wrappers
  import opened Text

  const DefaultExpirationMinutes: Int32 := 60
  const MillisecondsPerMinute: int := 60_000
  /** A `DateTime` counts ticks of 100 ns. */
  const TicksPerMillisecond: int := 10_000
  const TicksPerMinute: int := 600_000_000
  /** The ticks of `DateTime.MaxValue`; `DateTime.MinValue` is 0. */
  const MaxTicks: int := 3_155_378_975_999_999_999

  /** A `DateTime` as its tick count. */
  type Ticks = t: int | 0 <= t <= MaxTicks

  datatype JwtConfiguration = JwtConfiguration(
    audience: string,
    issuer: string,
    securityKey: string,
    expirationMinutes: Int32)

  /** The section as bound: `ExpirationMinutes` keeps its initializer when the section lacks it. */
  function Bind(audience: string, issuer: string, securityKey: string, expirationMinutes: Option<Int32>): (c: JwtConfiguration)
    ensures c.audience == audience && c.issuer == issuer && c.securityKey == securityKey
    ensures expirationMinutes.None? ==> c.expirationMinutes == 60
    ensures expirationMinutes.Some? ==> c.expirationMinutes == expirationMinutes.value
  {
    JwtConfiguration(audience, issuer, securityKey,
      if expirationMinutes.Some? then expirationMinutes.value else DefaultExpirationMinutes)
  }

  // ---------------------------------------------------------------------
  // Expiry
  // ---------------------------------------------------------------------

  /**
   * `ExpirationInMilliseconds`: minutes times 60000 in unchecked 32-bit
   * arithmetic, so a large setting wraps around.
   */
  function ExpirationInMilliseconds(c: JwtConfiguration): Int32 {
    WrapInt32(c.expirationMinutes as int * MillisecondsPerMinute)
  }

  /** Up to 35791 minutes either way, the product fits and is exact. */
  lemma ExpirationInMillisecondsExact(c: JwtConfiguration)
    requires -35791 <= c.expirationMinutes as int <= 35791
    ensures ExpirationInMilliseconds(c) == c.expirationMinutes as int * 60_000
    ensures ExpirationInMilliseconds(c) > 0 <==> c.expirationMinutes > 0
  {
  }

  /** One minute more and a positive setting reports a negative lifetime. */
  lemma ExpirationInMillisecondsWraps(c: JwtConfiguration)
    requires c.expirationMinutes == 35792
    ensures ExpirationInMilliseconds(c) == -2_147_447_296
  {
  }

  /**
   * From 35792 up to 71582 minutes the product passes 2^31 but stays below
   * 2^32, so it wraps to itself minus 2^32: every such positive setting
   * reports a negative lifetime.
   */
  lemma ExpirationInMillisecondsNegative(c: JwtConfiguration)
    requires 35792 <= c.expirationMinutes as int <= 71582
    ensures ExpirationInMilliseconds(c) == c.expirationMinutes as int * 60_000 - 0x1_0000_0000
    ensures ExpirationInMilliseconds(c) < 0
  {
    var x := c.expirationMinutes as int * MillisecondsPerMinute;
    assert Int32Max < x < 0x1_0000_0000;
    assert x % 0x1_0000_0000 == x;
  }

  /** With the default of 60 minutes a token lasts 3600000 ms. */
  lemma DefaultLifetime(audience: string, issuer: string, securityKey: string)
    ensures ExpirationInMilliseconds(Bind(audience, issuer, securityKey, None)) == 3_600_000
  {
  }

  /**
   * `ExpirationDate`: the current instant plus the configured minutes;
   * `AddMinutes` throws when the sum leaves the `DateTime` range.
   */
  function ExpirationDate(c: JwtConfiguration, now: Ticks): (r: Outcome<Ticks>)
    ensures r.Returned? <==> 0 <= now + c.expirationMinutes as int * TicksPerMinute <= MaxTicks
    ensures r.Returned? ==> r.value - now == c.expirationMinutes as int * TicksPerMinute
  {
    var t := now + c.expirationMinutes as int * TicksPerMinute;
    if 0 <= t <= MaxTicks then Returned(t) else Threw
  }

  /**
   * Where the millisecond figure does not wrap, it is exactly the distance
   * from now to the expiry instant that goes into the token.
   */
  lemma ExpiryFiguresAgree(c: JwtConfiguration, now: Ticks)
    requires -35791 <= c.expirationMinutes as int <= 35791
    requires ExpirationDate(c, now).Returned?
    ensures ExpirationDate(c, now).value - now == ExpirationInMilliseconds(c) as int * TicksPerMillisecond
  {
    ExpirationInMillisecondsExact(c);
  }

  // ---------------------------------------------------------------------
  // Key bytes
  // ---------------------------------------------------------------------

  newtype byte = b: int | 0 <= b < 256

  /** The UTF-8 bytes of one Unicode scalar value. */
  function EncodeChar(c: char): (r: seq<byte>)
    ensures 1 <= |r| <= 4
  {
    var n := c as int;
    if n < 0x80 then [n as byte]
    else if n < 0x800 then [(0xC0 + n / 0x40) as byte, (0x80 + n % 0x40) as byte]
    else if n < 0x1_0000 then
      [(0xE0 + n / 0x1000) as byte, (0x80 + n / 0x40 % 0x40) as byte, (0x80 + n % 0x40) as byte]
    else
      [(0xF0 + n / 0x4_0000) as byte, (0x80 + n / 0x1000 % 0x40) as byte,
       (0x80 + n / 0x40 % 0x40) as byte, (0x80 + n % 0x40) as byte]
  }

  /** `SecurityKeyBytes`: the key string in UTF-8. */
  function Utf8(s: string): seq<byte> {
    if s == [] then [] else EncodeChar(s[0]) + Utf8(s[1..])
  }

  function SecurityKeyBytes(c: JwtConfiguration): seq<byte> {
    Utf8(c.securityKey)
  }

  /** Number of bytes of the sequence that starts with lead byte `b`, 0 for a non-lead byte. */
  function SequenceLength(b: byte): nat {
    if b < 0x80 then 1
    else if b < 0xC0 then 0
    else if b < 0xE0 then 2
    else if b < 0xF0 then 3
    else 4
  }

  /** Reads one scalar value from the front of `bytes`, with the number of bytes it took. */
  function DecodeChar(bytes: seq<byte>): Option<(char, nat)>
    requires bytes != []
  {
    var k := SequenceLength(bytes[0]);
    if k == 0 || |bytes| < k then None
    else
      var n :=
        if k == 1 then bytes[0] as int
        else if k == 2 then (bytes[0] as int - 0xC0) * 0x40 + (bytes[1] as int - 0x80)
        else if k == 3 then (bytes[0] as int - 0xE0) * 0x1000 + (bytes[1] as int - 0x80) * 0x40 + (bytes[2] as int - 0x80)
        else (bytes[0] as int - 0xF0) * 0x4_0000 + (bytes[1] as int - 0x80) * 0x1000
             + (bytes[2] as int - 0x80) * 0x40 + (bytes[3] as int - 0x80);
      if 0 <= n < 0xD800 || 0xE000 <= n < 0x11_0000 then Some((n as char, k)) else None
  }

  /** The inverse of `Utf8` on the byte strings it produces. */
  function DecodeUtf8(bytes: seq<byte>): Option<string>
    decreases |bytes|
  {
    if bytes == [] then Some([])
    else match DecodeChar(bytes)
      case None => None
      case Some((c, k)) =>
        if k == 0 then None
        else match DecodeUtf8(bytes[k..])
          case None => None
          case Some(rest) => Some([c] + rest)
  }

  /** Each scalar value's bytes read back as that value, whatever follows them. */
  lemma DecodeEncodedChar(c: char, rest: seq<byte>)
    ensures DecodeChar(EncodeChar(c) + rest) == Some((c, |EncodeChar(c)|))
  {
    var n := c as int;
    if n < 0x80 {
    } else if n < 0x800 {
      DecodeTwo(c, rest);
    } else if n < 0x1_0000 {
      DecodeThree(c, rest);
    } else {
      DecodeFour(c, rest);
    }
  }

  lemma DecodeTwo(c: char, rest: seq<byte>)
    requires 0x80 <= c as int < 0x800
    ensures DecodeChar(EncodeChar(c) + rest) == Some((c, 2))
  {
    var n := c as int;
    var e := EncodeChar(c) + rest;
    var hi, lo := n / 0x40, n % 0x40;
    assert n == hi * 0x40 + lo;
    assert e[0] as int == 0xC0 + hi && e[1] as int == 0x80 + lo;
    assert SequenceLength(e[0]) == 2;
  }

  lemma DecodeThree(c: char, rest: seq<byte>)
    requires 0x800 <= c as int < 0x1_0000
    ensures DecodeChar(EncodeChar(c) + rest) == Some((c, 3))
  {
    var n := c as int;
    var e := EncodeChar(c) + rest;
    var q, lo := n / 0x40, n % 0x40;
    var hi, mid := q / 0x40, q % 0x40;
    assert n == q * 0x40 + lo && q == hi * 0x40 + mid;
    assert n / 0x1000 == hi;
    assert e[0] as int == 0xE0 + hi && e[1] as int == 0x80 + mid && e[2] as int == 0x80 + lo;
    assert SequenceLength(e[0]) == 3;
    assert hi * 0x1000 + mid * 0x40 + lo == n;
  }

  lemma DecodeFour(c: char, rest: seq<byte>)
    requires 0x1_0000 <= c as int
    ensures DecodeChar(EncodeChar(c) + rest) == Some((c, 4))
  {
    var n := c as int;
    var e := EncodeChar(c) + rest;
    var q, lo := n / 0x40, n % 0x40;
    var r, mid := q / 0x40, q % 0x40;
    var hi, upper := r / 0x40, r % 0x40;
    assert n == q * 0x40 + lo && q == r * 0x40 + mid && r == hi * 0x40 + upper;
    assert n / 0x1000 == r && n / 0x4_0000 == hi;
    assert e[0] as int == 0xF0 + hi && e[1] as int == 0x80 + upper;
    assert e[2] as int == 0x80 + mid && e[3] as int == 0x80 + lo;
    assert SequenceLength(e[0]) == 4;
    assert hi * 0x4_0000 + upper * 0x1000 + mid * 0x40 + lo == n;
  }

  /** Decoding the UTF-8 bytes of a string gives the string back. */
  lemma {:induction false} Utf8RoundTrip(s: string)
    ensures DecodeUtf8(Utf8(s)) == Some(s)
  {
    if s != [] {
      var e := EncodeChar(s[0]);
      DecodeEncodedChar(s[0], Utf8(s[1..]));
      assert (e + Utf8(s[1..]))[|e|..] == Utf8(s[1..]);
      Utf8RoundTrip(s[1..]);
      assert [s[0]] + s[1..] == s;
    }
  }

  /** Different key strings give different key bytes. */
  lemma KeyBytesInjective(a: JwtConfiguration, b: JwtConfiguration)
    requires SecurityKeyBytes(a) == SecurityKeyBytes(b)
    ensures a.securityKey == b.securityKey
  {
    Utf8RoundTrip(a.securityKey);
    Utf8RoundTrip(b.securityKey);
  }

  /** An ASCII key is its own bytes. */
  lemma {:induction false} AsciiKeyBytes(s: string)
    requires forall i :: 0 <= i < |s| ==> s[i] as int < 0x80
    ensures |Utf8(s)| == |s|
    ensures forall i :: 0 <= i < |s| ==> Utf8(s)[i] as int == s[i] as int
  {
    if s != [] {
      AsciiKeyBytes(s[1..]);
    }
  }
}
