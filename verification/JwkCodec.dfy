/**
 * Integers in a JWK: Base64urlUInt of section 2 of RFC 7518 (minimal big-endian bytes, zero as one
 * zero byte), as auth-service writes the exponent and the JWKS client reads it back.
 */
module JwkCodec {
  import opened Prelude

  newtype byte = b: int | 0 <= b < 256

  const TWO_TO_63: int := 0x8000_0000_0000_0000
  const TWO_TO_64: int := 0x1_0000_0000_0000_0000

  /** A Go int: 64 bits, wrapping around. */
  function ToInt64(x: int): (r: int)
    ensures -0x8000_0000_0000_0000 <= r < 0x8000_0000_0000_0000 && (r - x) % 0x1_0000_0000_0000_0000 == 0
    ensures -TWO_TO_63 <= x < TWO_TO_63 ==> r == x
  {
    (x + TWO_TO_63) % TWO_TO_64 - TWO_TO_63
  }

  /** The unsigned number that bytes spell, most significant first. */
  function Value(bytes: seq<byte>): nat {
    if bytes == [] then 0 else Value(bytes[..|bytes| - 1]) * 256 + bytes[|bytes| - 1] as int
  }

  function Power256(n: nat): nat {
    if n == 0 then 1 else Power256(n - 1) * 256
  }

  /** Most significant first: the first byte counts for as much as there are places behind it. */
  lemma {:induction false} ValueIsBigEndian(b: byte, rest: seq<byte>)
    ensures Value([b] + rest) == b as int * Power256(|rest|) + Value(rest)
    ensures Value([1, 0]) == 256
  {
    assert [1, 0][..1] == [1 as byte] && Value([1 as byte]) == 1;
    if rest == [] {
      assert [b] + rest == [b];
    } else {
      var n := |rest| - 1;
      ValueIsBigEndian(b, rest[..n]);
      assert ([b] + rest)[..|rest|] == [b] + rest[..n];
      TimesPower(b as int, n);
    }
  }

  lemma TimesPower(b: int, n: nat)
    ensures b * Power256(n + 1) == b * Power256(n) * 256
  {
  }

  function Digits(n: nat): seq<byte> {
    if n == 0 then [] else Digits(n / 256) + [(n % 256) as byte]
  }

  function UInt(n: nat): seq<byte> {
    if n == 0 then [0] else Digits(n)
  }

  lemma MoveLowestDigit(n: nat, rest: nat, d: byte, b: seq<byte>)
    requires n > 0 && rest == n / 256 && d as int == n % 256
    ensures Digits(rest) + ([d] + b) == Digits(n) + b
  {
    assert Digits(n) == Digits(rest) + [d];
    Regroup(Digits(rest), d, b);
  }

  lemma Regroup(front: seq<byte>, d: byte, b: seq<byte>)
    ensures front + ([d] + b) == front + [d] + b
  {
  }

  /** bigEndianBytes: a negative number has no bytes. */
  method BigEndianBytes(e: int) returns (b: seq<byte>)
    ensures b == if e < 0 then [] else UInt(e)
  {
    if e == 0 {
      return [0];
    }
    b := [];
    var rest := e;
    while rest > 0
      invariant e < 0 ==> b == []
      invariant e > 0 ==> rest >= 0 && Digits(rest) + b == Digits(e)
    {
      var d := (rest % 256) as byte;
      MoveLowestDigit(rest, rest / 256, d, b);
      b := [d] + b;
      rest := rest / 256;
    }
  }

  /** One turn of the client's loop on a 64-bit int: shift left by eight, or in the byte. */
  function ShiftOr(e: int, b: byte): int {
    ToInt64(e * 256 + b as int)
  }

  lemma WrapOnceOrEachTime(e: int, x: int, b: byte)
    requires e == ToInt64(x)
    ensures ShiftOr(e, b) == ToInt64(x * 256 + b as int)
  {
    var k := (e - x) / TWO_TO_64;
    assert e == x + k * TWO_TO_64;
    assert e * 256 + b as int == x * 256 + b as int + (256 * k) * TWO_TO_64;
    WrapIgnoresMultiples(x * 256 + b as int, 256 * k);
  }

  lemma WrapIgnoresMultiples(x: int, k: int)
    ensures ToInt64(x + k * TWO_TO_64) == ToInt64(x)
  {
    ModIgnoresMultiples(x + TWO_TO_63, k);
    assert x + k * TWO_TO_64 + TWO_TO_63 == x + TWO_TO_63 + k * TWO_TO_64;
  }

  lemma ModIgnoresMultiples(x: int, k: int)
    ensures (x + k * TWO_TO_64) % TWO_TO_64 == x % TWO_TO_64
  {
  }

  /** Wrapping at every turn is wrapping the whole number once. */
  method DecodeExponent(bytes: seq<byte>) returns (e: int)
    ensures e == ToInt64(Value(bytes))
  {
    e := 0;
    for i := 0 to |bytes|
      invariant e == ToInt64(Value(bytes[..i]))
    {
      assert bytes[..i + 1][..i] == bytes[..i];
      WrapOnceOrEachTime(e, Value(bytes[..i]), bytes[i]);
      e := ShiftOr(e, bytes[i]);
    }
    assert bytes[..|bytes|] == bytes;
  }

  lemma {:induction false} ValueOfDigits(n: nat)
    ensures Value(Digits(n)) == n
    ensures n > 0 ==> Digits(n) != [] && Digits(n)[0] != 0
  {
    if n > 0 {
      ValueOfDigits(n / 256);
      assert Digits(n)[..|Digits(n)| - 1] == Digits(n / 256);
    }
  }

  /** No leading zero, unless the number is zero. */
  predicate Minimal(bytes: seq<byte>) {
    bytes == [0] || (bytes != [] && bytes[0] != 0)
  }

  lemma {:induction false} ValueIsPositive(bytes: seq<byte>)
    requires bytes != [] && bytes[0] != 0
    ensures Value(bytes) > 0
  {
    if |bytes| > 1 {
      ValueIsPositive(bytes[..|bytes| - 1]);
    }
  }

  lemma {:induction false} DigitsOfValue(bytes: seq<byte>)
    requires bytes != [] && bytes[0] != 0
    ensures Digits(Value(bytes)) == bytes
  {
    var n := |bytes| - 1;
    ValueIsPositive(bytes);
    assert Value(bytes) / 256 == Value(bytes[..n]) && Value(bytes) % 256 == bytes[n] as int;
    if n > 0 {
      DigitsOfValue(bytes[..n]);
    }
    assert bytes == bytes[..n] + [bytes[n]];
  }

  lemma {:induction false} ValueBound(bytes: seq<byte>, n: nat)
    requires |bytes| <= |Digits(n)| && n > 0 && Value(bytes) == n
    ensures |bytes| == |Digits(n)|
  {
    assert Digits(n) == Digits(n / 256) + [(n % 256) as byte];
    if bytes != [] && n / 256 > 0 {
      assert Value(bytes[..|bytes| - 1]) == n / 256;
      ValueBound(bytes[..|bytes| - 1], n / 256);
    }
  }

  /** The encoding spells the number, without a superfluous byte: no other spelling is shorter. */
  lemma EncodingIsMinimal(n: nat, bytes: seq<byte>)
    ensures Value(UInt(n)) == n && Minimal(UInt(n))
    ensures Value(bytes) == n && bytes != [] ==> |UInt(n)| <= |bytes|
  {
    ValueOfDigits(n);
    if n > 0 && Value(bytes) == n && |bytes| < |Digits(n)| {
      ValueBound(bytes, n);
    }
  }

  /** Reading and writing back reproduces exactly the minimal spellings. */
  lemma ReencodingKeepsExactlyMinimal(bytes: seq<byte>)
    ensures UInt(Value(bytes)) == bytes <==> Minimal(bytes)
  {
    ValueOfDigits(Value(bytes));
    if Minimal(bytes) && bytes != [0] {
      ValueIsPositive(bytes);
      DigitsOfValue(bytes);
    }
    assert Value([0]) == 0;
  }

  /** What the server writes for an exponent. */
  function Encoded(e: int): seq<byte> {
    if e < 0 then [] else UInt(e)
  }

  /** Of all 64-bit ints, exactly the non-negative ones come back; and none of the turns then overflows. */
  lemma ExponentRoundTrip(e: int)
    requires -TWO_TO_63 <= e < TWO_TO_63
    ensures ToInt64(Value(Encoded(e))) == e <==> e >= 0
    ensures e >= 0 ==> forall k :: 0 <= k <= |Encoded(e)| ==> Value(Encoded(e)[..k]) <= e
  {
    if e >= 0 {
      EncodingIsMinimal(e, []);
      forall k | 0 <= k <= |Encoded(e)| ensures Value(Encoded(e)[..k]) <= e {
        PrefixIsSmaller(Encoded(e), k);
      }
    }
  }

  lemma {:induction false} PrefixIsSmaller(bytes: seq<byte>, k: nat)
    requires k <= |bytes|
    ensures Value(bytes[..k]) <= Value(bytes)
  {
    if k < |bytes| {
      PrefixIsSmaller(bytes[..|bytes| - 1], k);
      assert bytes[..|bytes| - 1][..k] == bytes[..k];
    } else {
      assert bytes[..k] == bytes;
    }
  }
}
