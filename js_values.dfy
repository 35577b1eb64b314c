/** The few JavaScript values and built-ins the filter script relies on:
    optional values, evaluations that may throw, property values of plain
    objects, keys of a `Set<number|string>`, `String(n)` for an integer `n`
    and the global `parseInt` with no radix argument. */
module JsValues {

  datatype Option<+T> = None | Some(value: T)

  /** The result of evaluating an expression that may throw. */
  datatype Outcome<+T> = Done(value: T) | Thrown

  /** A property value of a plain object used as a `Record<string, T>`:
      `undefined`, a boolean, or any other value a JSON document can hold. */
  datatype Val = Undefined | Bool(b: bool) | OtherValue

  /** A member of a JavaScript `Set<number|string>`. `Set.prototype.has`
      compares with SameValueZero, so a number never equals a string. */
  datatype SetKey = StrKey(s: string) | NumKey(n: int)

  // ---------------------------------------------------------------------
  // String(n) for an integer n (plain decimal notation)
  // ---------------------------------------------------------------------

  function DigitChar(d: nat): char
    requires d < 10
  {
    ('0' as int + d) as char
  }

  /** The decimal digits of `n`, most significant first, without leading zeros. */
  function NatToString(n: nat): (s: string)
    ensures |s| > 0
    ensures forall i :: 0 <= i < |s| ==> IsDigitOf(s[i], 10)
    decreases n
  {
    if n < 10 then [DigitChar(n)] else NatToString(n / 10) + [DigitChar(n % 10)]
  }

  /** `String(n)`: a minus sign for negative numbers, then the decimal digits. */
  function IntToString(n: int): string {
    if n < 0 then "-" + NatToString(-n) else NatToString(n)
  }

  // ---------------------------------------------------------------------
  // parseInt(s) with no radix
  // ---------------------------------------------------------------------

  /** The characters `String.prototype.trimStart` and `parseInt` skip:
      WhiteSpace (tab, vertical tab, form feed, space, no-break space, the
      byte order mark and the space separators) and LineTerminator. */
  predicate IsJsWhiteSpace(c: char) {
    var x := c as int;
    x == 0x09 || x == 0x0A || x == 0x0B || x == 0x0C || x == 0x0D || x == 0x20 ||
    x == 0xA0 || x == 0x1680 || (0x2000 <= x <= 0x200A) || x == 0x2028 || x == 0x2029 ||
    x == 0x202F || x == 0x205F || x == 0x3000 || x == 0xFEFF
  }

  function TrimStart(s: string): (r: string)
    ensures r == [] || !IsJsWhiteSpace(r[0])
    ensures |r| <= |s| && r == s[|s| - |r|..]
  {
    if s != [] && IsJsWhiteSpace(s[0]) then TrimStart(s[1..]) else s
  }

  /** The value of a digit in bases up to 16 (`0-9`, `a-f`, `A-F`). */
  function DigitValue(c: char): Option<nat> {
    if '0' <= c <= '9' then Some(c as int - '0' as int)
    else if 'a' <= c <= 'f' then Some(c as int - 'a' as int + 10)
    else if 'A' <= c <= 'F' then Some(c as int - 'A' as int + 10)
    else None
  }

  predicate IsDigitOf(c: char, radix: nat) {
    DigitValue(c).Some? && DigitValue(c).value < radix
  }

  /** How many leading characters of `s` are digits in `radix`. */
  function LeadingDigits(s: string, radix: nat): (n: nat)
    ensures n <= |s|
    ensures forall i :: 0 <= i < n ==> IsDigitOf(s[i], radix)
    ensures n < |s| ==> !IsDigitOf(s[n], radix)
  {
    if s == [] || !IsDigitOf(s[0], radix) then 0 else 1 + LeadingDigits(s[1..], radix)
  }

  /** The number that the digit string `s` denotes in `radix`. */
  function DigitsValue(s: string, radix: nat): nat
    requires forall i :: 0 <= i < |s| ==> IsDigitOf(s[i], radix)
  {
    if s == [] then 0
    else
      var last := s[|s| - 1];
      assert IsDigitOf(last, radix);
      DigitsValue(s[..|s| - 1], radix) * radix + DigitValue(last).value
  }

  /** The digits after the sign: a `0x`/`0X` prefix selects base 16 and
      otherwise base 10; the longest run of digits that follows is the
      magnitude, and none at all gives `NaN` (`None`). */
  function ParseMagnitude(unsigned: string): Option<nat> {
    var hex := |unsigned| >= 2 && unsigned[0] == '0' && (unsigned[1] == 'x' || unsigned[1] == 'X');
    var radix := if hex then 16 else 10;
    var body := if hex then unsigned[2..] else unsigned;
    var n := LeadingDigits(body, radix);
    if n == 0 then None else Some(DigitsValue(body[..n], radix))
  }

  /** `parseInt(s)`: skip leading white space, read an optional sign, then
      the magnitude. A minus zero is folded into zero. */
  function ParseInt(s: string): Option<int> {
    var t := TrimStart(s);
    var negative := t != [] && t[0] == '-';
    var unsigned := if t != [] && (t[0] == '-' || t[0] == '+') then t[1..] else t;
    var magnitude := ParseMagnitude(unsigned);
    if magnitude.None? then None
    else if negative then Some(-(magnitude.value as int))
    else Some(magnitude.value as int)
  }

  // ---------------------------------------------------------------------
  // Properties
  // ---------------------------------------------------------------------

  lemma {:induction false} DigitsValueOfNatToString(n: nat)
    ensures DigitsValue(NatToString(n), 10) == n
    decreases n
  {
    var s := NatToString(n);
    if n >= 10 {
      DigitsValueOfNatToString(n / 10);
      assert s[..|s| - 1] == NatToString(n / 10);
    }
  }

  lemma ParseMagnitudeOfDigits(digits: string)
    requires digits != [] && forall i :: 0 <= i < |digits| ==> IsDigitOf(digits[i], 10)
    ensures ParseMagnitude(digits) == Some(DigitsValue(digits, 10))
  {
    if |digits| >= 2 {
      DigitIsNotSpaceSignOrX(digits[1]);
    }
    LeadingDigitsOfDigitsThenStop(digits, []);
    assert digits + [] == digits;
    assert LeadingDigits(digits, 10) == |digits|;
    assert digits[..|digits|] == digits;
  }

  lemma DigitIsNotSpaceSignOrX(c: char)
    requires IsDigitOf(c, 10)
    ensures !IsJsWhiteSpace(c) && c != '-' && c != '+' && c != 'x' && c != 'X'
  {
    assert '0' <= c <= '9';
  }

  /** Digits not preceded by white space or a sign read as their magnitude. */
  lemma ParseIntOfUnsigned(digits: string, v: nat)
    requires digits != [] && IsDigitOf(digits[0], 10)
    requires ParseMagnitude(digits) == Some(v)
    ensures ParseInt(digits) == Some(v as int)
  {
    DigitIsNotSpaceSignOrX(digits[0]);
    assert TrimStart(digits) == digits;
  }

  /** A minus sign then the digits read as the negated magnitude. */
  lemma ParseIntOfNegated(digits: string, v: nat)
    requires digits != [] && IsDigitOf(digits[0], 10)
    requires ParseMagnitude(digits) == Some(v)
    ensures ParseInt("-" + digits) == Some(0 - v as int)
  {
    var s := "-" + digits;
    assert s[0] == '-' && s[1..] == digits;
    assert TrimStart(s) == s;
  }

  /** `parseInt(String(n))` gives back `n`: the string and number forms of
      an integer id are the same id to `parseInt`. */
  lemma ParseIntOfIntToString(n: int)
    ensures ParseInt(IntToString(n)) == Some(n)
  {
    var m: nat := if n < 0 then -n else n;
    var digits := NatToString(m);
    DigitsValueOfNatToString(m);
    ParseMagnitudeOfDigits(digits);
    if n < 0 {
      ParseIntOfNegated(digits, m);
    } else {
      ParseIntOfUnsigned(digits, m);
    }
  }

  /** `parseInt` reads the leading decimal digits and stops at the first
      character that is not one; only a lone `0` followed by `x` or `X`
      is read differently (as a hexadecimal prefix). */
  lemma {:induction false} ParseIntStopsAtNonDigit(digits: string, rest: string)
    requires digits != []
    requires !(digits == "0" && rest != [] && (rest[0] == 'x' || rest[0] == 'X'))
    requires forall i :: 0 <= i < |digits| ==> IsDigitOf(digits[i], 10)
    requires rest == [] || !IsDigitOf(rest[0], 10)
    ensures ParseInt(digits + rest) == Some(DigitsValue(digits, 10))
  {
    var s := digits + rest;
    assert s[0] == digits[0];
    DigitIsNotSpaceSignOrX(s[0]);
    assert TrimStart(s) == s;
    if |digits| >= 2 {
      assert s[1] == digits[1];
      DigitIsNotSpaceSignOrX(digits[1]);
    }
    LeadingDigitsOfDigitsThenStop(digits, rest);
    assert s[..|digits|] == digits;
    assert ParseMagnitude(s) == Some(DigitsValue(digits, 10));
  }

  lemma {:induction false} LeadingDigitsOfDigitsThenStop(digits: string, rest: string)
    requires forall i :: 0 <= i < |digits| ==> IsDigitOf(digits[i], 10)
    requires rest == [] || !IsDigitOf(rest[0], 10)
    ensures LeadingDigits(digits + rest, 10) == |digits|
  {
    if digits == [] {
      assert digits + rest == rest;
    } else {
      assert (digits + rest)[1..] == digits[1..] + rest;
      LeadingDigitsOfDigitsThenStop(digits[1..], rest);
    }
  }
}
