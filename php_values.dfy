/**
 * The dynamically typed values the protector reads from its configuration
 * array, with the few PHP conversions it applies to them: `isset`, truthiness
 * (`empty`, `(bool)`), `intval`/`(int)`, the key an array offset is cast to,
 * and the loose `==` used by `switch`.
 *
 * Numeric strings (`is_numeric`) are simplified to a non-empty run of ASCII
 * digits; PHP's signs, leading whitespace, decimals and exponents are not
 * modelled there. `intval` reads an optional sign and the leading digits.
 */
module PhpValues {

  /** A PHP value as it can appear in a configuration array. */
  datatype Value =
    | Null
    | Bool(b: bool)
    | Int(i: int)
    | Str(s: string)
    | Arr(entries: map<string, Value>)

  /** `$m[$k]` with a missing key read as null. */
  function Get(m: map<string, Value>, k: string): Value
  {
    if k in m then m[k] else Null
  }

  /** `isset($m[$k])`: the key is present and its value is not null. */
  predicate IsSet(m: map<string, Value>, k: string)
  {
    k in m && m[k] != Null
  }

  /** `$v[$k]` for any `$v`: offsets into a non-array never hit an entry here. */
  function Entries(v: Value): map<string, Value>
  {
    if v.Arr? then v.entries else map[]
  }

  predicate IsDigit(c: char)
  {
    '0' <= c <= '9'
  }

  predicate AllDigits(s: string)
  {
    forall i :: 0 <= i < |s| ==> IsDigit(s[i])
  }

  /** `is_numeric`, simplified to a non-empty run of ASCII digits. */
  predicate IsNumeric(s: string)
  {
    |s| > 0 && AllDigits(s)
  }

  /** A string is truthy unless it is "" or "0" (so `empty("0")` holds). */
  predicate NonEmptyString(s: string)
  {
    s != "" && s != "0"
  }

  /** PHP truthiness, the test behind `if ($v)`, `!empty($v)` and `(bool) $v`. */
  predicate Truthy(v: Value)
  {
    match v
    case Null => false
    case Bool(b) => b
    case Int(i) => i != 0
    case Str(s) => NonEmptyString(s)
    case Arr(m) => |m| > 0
  }

  /** The longest prefix of `s` made of digits. */
  function LeadingDigits(s: string): (d: string)
    ensures AllDigits(d) && d <= s
    ensures d == s || !IsDigit(s[|d|])
  {
    if s == [] || !IsDigit(s[0]) then [] else [s[0]] + LeadingDigits(s[1..])
  }

  /** The decimal value of a string of digits. */
  function DigitsValue(d: string): nat
    requires AllDigits(d)
  {
    if d == [] then 0 else DigitsValue(d[..|d| - 1]) * 10 + (d[|d| - 1] as int - '0' as int)
  }

  function DigitChar(n: nat): (c: char)
    requires n < 10
    ensures IsDigit(c)
  {
    ('0' as int + n) as char
  }

  /** The decimal rendering of a natural number. */
  function NatToString(n: nat): (s: string)
    ensures IsNumeric(s)
  {
    if n < 10 then [DigitChar(n)] else NatToString(n / 10) + [DigitChar(n % 10)]
  }

  /** The decimal rendering of an integer, as `(string) $i` produces it. */
  function IntToString(i: int): string
  {
    if i < 0 then "-" + NatToString(-i) else NatToString(i)
  }

  /** `intval($s)` on a string: an optional sign and the leading digits. */
  function StringToInt(s: string): int
  {
    if |s| > 0 && s[0] == '-' then -(DigitsValue(LeadingDigits(s[1..])) as int)
    else if |s| > 0 && s[0] == '+' then DigitsValue(LeadingDigits(s[1..]))
    else DigitsValue(LeadingDigits(s))
  }

  /** `intval($v)`, which is also `(int) $v`. */
  function IntVal(v: Value): int
  {
    match v
    case Null => 0
    case Bool(b) => if b then 1 else 0
    case Int(i) => i
    case Str(s) => StringToInt(s)
    case Arr(m) => if |m| == 0 then 0 else 1
  }

  /**
   * The array key a scalar becomes when used as an offset (`$a[$v]`), which
   * is also the string `strtoupper` sees. An array used as an offset is a
   * type error in PHP; it is read as "" here.
   */
  function KeyOf(v: Value): string
  {
    match v
    case Null => ""
    case Bool(b) => if b then "1" else "0"
    case Int(i) => IntToString(i)
    case Str(s) => s
    case Arr(_) => ""
  }

  /** `$v == ''` under PHP 8 loose comparison. */
  predicate LooseEqualsEmptyString(v: Value)
  {
    match v
    case Null => true
    case Bool(b) => !b
    case Int(_) => false
    case Str(s) => s == ""
    case Arr(_) => false
  }

  /** `$v == $n` for an integer `$n` under PHP 8 loose comparison. */
  predicate LooseEqualsInt(v: Value, n: int)
  {
    match v
    case Null => n == 0
    case Bool(b) => b == (n != 0)
    case Int(i) => i == n
    case Str(s) => IsNumeric(s) && DigitsValue(s) == n
    case Arr(_) => false
  }

  /** `$a == $b` for two strings under PHP 8: two numeric strings compare by value, any other pair byte for byte. */
  predicate LooseEqualsStrings(a: string, b: string)
  {
    a == b || (IsNumeric(a) && IsNumeric(b) && DigitsValue(a) == DigitsValue(b))
  }

  /** `$v == $s` for an array element `$v` and a string `$s`, the test `in_array` makes. */
  predicate LooseEqualsString(v: Value, s: string)
  {
    match v
    case Null => s == ""
    case Bool(b) => b == NonEmptyString(s)
    case Int(i) => IntToString(i) == s || (IsNumeric(s) && DigitsValue(s) == i)
    case Str(x) => LooseEqualsStrings(x, s)
    case Arr(_) => false
  }

  /** A string with a character that is not a digit loosely equals only itself. */
  lemma LooseEqualsStringsNonNumeric(a: string, b: string, k: nat)
    requires k < |a| && !IsDigit(a[k])
    ensures LooseEqualsStrings(a, b) <==> a == b
  {
  }

  /** Leading zeros do not count: "0123" == "123" in PHP although the strings differ. */
  lemma LooseEqualsStringsLeadingZero(a: string, b: string)
    requires a == "0123" && b == "123"
    ensures LooseEqualsStrings(a, b) && a != b
  {
    assert a[..|a| - 1] == "012" && a[..|a| - 1][..2] == "01" && a[..1] == "0";
    assert b[..|b| - 1] == "12" && b[..1] == "1";
    assert DigitsValue("0") == 0 && DigitsValue("1") == 1;
    assert DigitsValue("01") == 1 && DigitsValue("12") == 12;
    assert DigitsValue("012") == 12;
    assert IsNumeric(a) && IsNumeric(b);
  }

  lemma {:induction false} DigitsValueAppend(d: string, c: char)
    requires AllDigits(d) && IsDigit(c)
    ensures DigitsValue(d + [c]) == DigitsValue(d) * 10 + (c as int - '0' as int)
  {
    assert (d + [c])[..|d + [c]| - 1] == d;
  }

  /** Rendering a natural number and reading its digits back gives the number. */
  lemma {:induction false} DigitsValueOfNatToString(n: nat)
    ensures DigitsValue(NatToString(n)) == n
  {
    if n < 10 {
      assert NatToString(n) == [] + [DigitChar(n)];
      DigitsValueAppend([], DigitChar(n));
    } else {
      DigitsValueOfNatToString(n / 10);
      DigitsValueAppend(NatToString(n / 10), DigitChar(n % 10));
    }
  }

  lemma {:induction false} LeadingDigitsOfDigits(d: string)
    requires AllDigits(d)
    ensures LeadingDigits(d) == d
  {
    if d != [] {
      LeadingDigitsOfDigits(d[1..]);
    }
  }

  /** `intval((string) $i) == $i`: the integer rendering round-trips. */
  lemma IntValOfIntToString(i: int)
    ensures IntVal(Str(IntToString(i))) == i
  {
    var digits := NatToString(if i < 0 then -i else i);
    DigitsValueOfNatToString(if i < 0 then -i else i);
    LeadingDigitsOfDigits(digits);
    if i < 0 {
      assert ("-" + digits)[1..] == digits;
    } else {
      assert digits[0] != '-' && digits[0] != '+';
    }
  }
}
