/**
 * `generateAuthToken`: 64 random bytes rendered as 128 lowercase hex
 * characters (or, without a byte source, 128 characters drawn with
 * `mt_rand` from [a-z0-9]), cut to the configured token length.
 *
 * The random source is an input: which functions exist and what they
 * returned are given as an `Entropy` value.
 */
module TokenGenerator {
  import opened PhpValues

  newtype byte = b: int | 0 <= b < 256

  /** Number of random bytes drawn. */
  const RandLength: nat := 64
  /** Length of the string the token is cut from. */
  const RawLength: nat := 128
  /** Token length used when the configured one reads as 0. */
  const DefaultTokenLength: int := 32

  /**
   * The random material: `random_bytes` output, else
   * `openssl_random_pseudo_bytes` output, else 128 `mt_rand(0, 35)` draws.
   */
  datatype Entropy =
    | RandomBytes(bytes: seq<byte>)
    | OpensslBytes(bytes: seq<byte>)
    | MtRand(draws: seq<int>)

  /** What each source delivers: 64 bytes, or 128 draws in [0, 35]. */
  predicate WellFormed(e: Entropy)
  {
    match e
    case RandomBytes(b) => |b| == RandLength
    case OpensslBytes(b) => |b| == RandLength
    case MtRand(d) => |d| == RawLength && forall i :: 0 <= i < |d| ==> 0 <= d[i] <= 35
  }

  predicate IsLowerHex(c: char)
  {
    '0' <= c <= '9' || 'a' <= c <= 'f'
  }

  predicate IsLowerAlnum(c: char)
  {
    '0' <= c <= '9' || 'a' <= c <= 'z'
  }

  function HexDigit(n: int): (c: char)
    requires 0 <= n < 16
    ensures IsLowerHex(c)
  {
    if n < 10 then ('0' as int + n) as char else ('a' as int + n - 10) as char
  }

  function HexValue(c: char): (n: int)
    requires IsLowerHex(c)
    ensures 0 <= n < 16
  {
    if c <= '9' then c as int - '0' as int else c as int - 'a' as int + 10
  }

  /** `bin2hex`: two lowercase hex digits per byte, high nibble first. */
  function Bin2Hex(bytes: seq<byte>): (s: string)
    ensures |s| == 2 * |bytes|
    ensures forall i :: 0 <= i < |s| ==> IsLowerHex(s[i])
  {
    if bytes == [] then ""
    else [HexDigit(bytes[0] as int / 16), HexDigit(bytes[0] as int % 16)] + Bin2Hex(bytes[1..])
  }

  /** `hex2bin`, the inverse of Bin2Hex. */
  function Hex2Bin(s: string): seq<byte>
    requires |s| % 2 == 0
    requires forall i :: 0 <= i < |s| ==> IsLowerHex(s[i])
  {
    if s == [] then []
    else [(HexValue(s[0]) * 16 + HexValue(s[1])) as byte] + Hex2Bin(s[2..])
  }

  /** Bin2Hex loses nothing: the bytes can be read back from the token material. */
  lemma {:induction false} Hex2BinOfBin2Hex(bytes: seq<byte>)
    ensures Hex2Bin(Bin2Hex(bytes)) == bytes
  {
    if bytes != [] {
      var s := Bin2Hex(bytes);
      assert s[2..] == Bin2Hex(bytes[1..]);
      Hex2BinOfBin2Hex(bytes[1..]);
      var b := bytes[0] as int;
      assert HexValue(HexDigit(b / 16)) == b / 16;
      assert HexValue(HexDigit(b % 16)) == b % 16;
      assert bytes == [bytes[0]] + bytes[1..];
    }
  }

  /** One character of the fallback token: `chr(ord('a') + r)` below 26, else a digit. */
  function MtRandChar(r: int): (c: char)
    requires 0 <= r <= 35
    ensures IsLowerAlnum(c)
  {
    if r < 26 then ('a' as int + r) as char else ('0' as int + r - 26) as char
  }

  /** The draw a fallback character came from. */
  function MtRandDraw(c: char): (r: int)
    requires IsLowerAlnum(c)
    ensures 0 <= r <= 35
  {
    if 'a' <= c then c as int - 'a' as int else c as int - '0' as int + 26
  }

  /** The fallback alphabet is used without collisions: each draw gives a distinct character. */
  lemma MtRandDrawOfChar(r: int)
    requires 0 <= r <= 35
    ensures MtRandDraw(MtRandChar(r)) == r
  {
  }

  /** Reading a fallback character back as its draw and rendering that draw gives the character again. */
  lemma MtRandCharOfDraw(c: char)
    requires IsLowerAlnum(c)
    ensures MtRandChar(MtRandDraw(c)) == c
  {
  }

  /** The fallback string, one character per draw. */
  function MtRandString(draws: seq<int>): (s: string)
    requires forall i :: 0 <= i < |draws| ==> 0 <= draws[i] <= 35
    ensures |s| == |draws|
    ensures forall i :: 0 <= i < |s| ==> IsLowerAlnum(s[i])
  {
    seq(|draws|, i requires 0 <= i < |draws| => MtRandChar(draws[i]))
  }

  /** The fallback loop: appends one character per draw. */
  method MtRandToken(draws: seq<int>) returns (token: string)
    requires forall i :: 0 <= i < |draws| ==> 0 <= draws[i] <= 35
    ensures |token| == |draws|
    ensures forall i :: 0 <= i < |token| ==> IsLowerAlnum(token[i]) && MtRandDraw(token[i]) == draws[i]
  {
    token := "";
    var i := 0;
    while i < |draws|
      invariant 0 <= i <= |draws|
      invariant |token| == i
      invariant forall j :: 0 <= j < i ==> IsLowerAlnum(token[j]) && MtRandDraw(token[j]) == draws[j]
    {
      var c := MtRandChar(draws[i]);
      MtRandDrawOfChar(draws[i]);
      token := token + [c];
      i := i + 1;
    }
  }

  /** The 128-character string the token is cut from. */
  function RawToken(e: Entropy): (s: string)
    requires WellFormed(e)
    ensures |s| == RawLength
    ensures forall i :: 0 <= i < |s| ==> IsLowerAlnum(s[i])
    ensures !e.MtRand? ==> forall i :: 0 <= i < |s| ==> IsLowerHex(s[i])
  {
    match e
    case RandomBytes(b) => Bin2Hex(b)
    case OpensslBytes(b) => Bin2Hex(b)
    case MtRand(d) => MtRandString(d)
  }

  /** `substr($s, 0, $length)` as PHP 8 computes it, negative lengths counting from the end. */
  function Substr(s: string, length: int): (r: string)
    ensures r <= s
    ensures 0 <= length ==> |r| == if length < |s| then length else |s|
    ensures length < 0 ==> |r| == if 0 <= |s| + length then |s| + length else 0
  {
    if 0 <= length then (if length < |s| then s[..length] else s)
    else if 0 <= |s| + length then s[..|s| + length]
    else ""
  }

  /** The configured `tokenLength` after the default: a value whose intval is 0 becomes 32. */
  function EffectiveLength(configured: Value): (n: int)
    ensures n != 0
    ensures IntVal(configured) == 0 ==> n == DefaultTokenLength
    ensures IntVal(configured) != 0 ==> n == IntVal(configured)
  {
    if IntVal(configured) == 0 then DefaultTokenLength else IntVal(configured)
  }

  /** The token: the raw string cut to the effective length. */
  function Token(e: Entropy, configured: Value): (t: string)
    requires WellFormed(e)
    ensures t <= RawToken(e)
    ensures IntVal(configured) == 0 ==> |t| == DefaultTokenLength
  {
    Substr(RawToken(e), EffectiveLength(configured))
  }

  /**
   * For an effective length L of at least 1 the token has min(L, 128)
   * characters, all lowercase hex from a byte source and all in [a-z0-9]
   * from the fallback; a missing or zero length gives 32 characters.
   */
  lemma {:induction false} TokenShape(e: Entropy, configured: Value)
    requires WellFormed(e)
    ensures var t := Token(e, configured);
      && (EffectiveLength(configured) >= 1 ==>
            |t| == if EffectiveLength(configured) < RawLength then EffectiveLength(configured) else RawLength)
      && (IntVal(configured) == 0 ==> |t| == 32)
      && (forall i :: 0 <= i < |t| ==> IsLowerAlnum(t[i]))
      && (!e.MtRand? ==> forall i :: 0 <= i < |t| ==> IsLowerHex(t[i]))
  {
    var raw := RawToken(e);
    var t := Token(e, configured);
    assert t <= raw;
    forall i | 0 <= i < |t|
      ensures IsLowerAlnum(t[i]) && (!e.MtRand? ==> IsLowerHex(t[i]))
    {
      assert t[i] == raw[i];
    }
  }

  /**
   * A token of two or more characters is never "" or "0", so `hasToken`
   * recognises it; the default length of 32 is such a length.
   */
  lemma {:induction false} LongTokensAreNonEmpty(e: Entropy, configured: Value)
    requires WellFormed(e)
    requires EffectiveLength(configured) >= 2
    ensures NonEmptyString(Token(e, configured))
  {
    TokenShape(e, configured);
  }

  /** With `tokenLength` 1, a first byte below 16 yields the token "0", which PHP reads as empty. */
  lemma {:induction false} OneCharacterTokenCanBeZero(bytes: seq<byte>)
    requires |bytes| == RandLength && bytes[0] < 16
    ensures Token(RandomBytes(bytes), Int(1)) == "0"
  {
    var raw := Bin2Hex(bytes);
    assert raw[0] == HexDigit(bytes[0] as int / 16);
  }
}
