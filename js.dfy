/**
 * The small slice of JavaScript semantics the application relies on:
 * optional values, thrown errors, parsed JSON values and their truthiness,
 * the decimal rendering of an integer in a template literal, and
 * `String.prototype.substring`.
 */
module Js {

  datatype Option<+T> = None | Some(value: T)

  /** The errors an `async` operation of the application can reject with. */
  datatype Error =
    | HttpError(message: string)  // `throw new Error(message)` after a non-ok response
    | NetworkError                // `fetch` itself rejected
    | JsonError                   // `response.json()` rejected
    | StorageError                // an AsyncStorage call rejected
    | TypeError                   // a property read on `null` or `undefined`

  /** How an awaited call ends: with a value, or by throwing. */
  datatype Outcome<+T> = Returned(value: T) | Threw(error: Error)

  /** A value produced by `response.json()`; numbers are restricted to integers. */
  datatype Value =
    | Undefined
    | Null
    | Bool(b: bool)
    | Num(n: int)
    | Str(s: string)
    | Arr(items: seq<Value>)
    | Obj(fields: map<string, Value>)

  /** JavaScript truthiness (`!!v`) of a value. */
  predicate Truthy(v: Value)
    // The falsy values are exactly `undefined`, `null`, `false`, `0` and `''`.
    ensures !Truthy(v) <==> v in {Undefined, Null, Bool(false), Num(0), Str("")}
  {
    match v
    case Undefined => false
    case Null => false
    case Bool(b) => b
    case Num(n) => n != 0
    case Str(s) => s != ""
    case Arr(_) => true
    case Obj(_) => true
  }

  /** Truthiness of a `string | null` such as `AsyncStorage.getItem` yields. */
  predicate TruthyString(o: Option<string>) {
    o.Some? && o.value != ""
  }

  function Min(a: int, b: int): int { if a <= b then a else b }
  function Max(a: int, b: int): int { if a <= b then b else a }

  // ---------------------------------------------------------------------------
  // Decimal rendering of integers, as `${n}` produces for an integral number

  predicate IsDigit(c: char) { '0' <= c <= '9' }

  predicate AllDigits(s: string) {
    forall k :: 0 <= k < |s| ==> IsDigit(s[k])
  }

  function DigitChar(d: nat): (c: char)
    requires d < 10
    ensures IsDigit(c) && c as int - '0' as int == d
  {
    ('0' as int + d) as char
  }

  /** The decimal digits of `n`, most significant first, without leading zeros. */
  function NatToDecimal(n: nat): (s: string)
    ensures |s| >= 1 && AllDigits(s)
    ensures |s| > 1 ==> s[0] != '0'
    ensures s[0] == '0' <==> n == 0
    decreases n
  {
    if n < 10 then [DigitChar(n)] else NatToDecimal(n / 10) + [DigitChar(n % 10)]
  }

  /** The value of a string of decimal digits. */
  function DecimalValue(s: string): nat
    requires AllDigits(s)
    decreases |s|
  {
    if s == [] then 0 else DecimalValue(s[..|s| - 1]) * 10 + (s[|s| - 1] as int - '0' as int)
  }

  lemma {:induction false} DecimalRoundTrip(n: nat)
    ensures DecimalValue(NatToDecimal(n)) == n
    decreases n
  {
    if n >= 10 {
      var s := NatToDecimal(n);
      assert s[..|s| - 1] == NatToDecimal(n / 10);
      DecimalRoundTrip(n / 10);
    }
  }

  /** `${n}` for an integral number `n`. */
  function NumberToString(n: int): (s: string)
    ensures |s| >= 1
    ensures n >= 0 <==> AllDigits(s)
    ensures n < 0 <==> s[0] == '-'
    // No leading zeros, and no `-0`.
    ensures n >= 0 ==> |s| == 1 || s[0] != '0'
    ensures n < 0 ==> |s| >= 2 && AllDigits(s[1..]) && s[1] != '0'
  {
    if n < 0 then
      var s := "-" + NatToDecimal(-n);
      assert !IsDigit(s[0]);
      s
    else NatToDecimal(n)
  }

  /** Decimal digits in the form `NumberToString` writes them: at least one, no leading zero. */
  predicate Canonical(d: string) {
    |d| >= 1 && AllDigits(d) && (|d| == 1 || d[0] != '0')
  }

  /** Digits that do not start with `0` have a positive value. */
  lemma {:induction false} LeadingDigitPositive(d: string)
    requires |d| >= 1 && AllDigits(d) && d[0] != '0'
    ensures DecimalValue(d) >= 1
    decreases |d|
  {
    if |d| > 1 {
      LeadingDigitPositive(d[..|d| - 1]);
    }
  }

  /** Canonical digits are the rendering of their own value. */
  lemma {:induction false} CanonicalIsRendering(d: string)
    requires Canonical(d)
    ensures NatToDecimal(DecimalValue(d)) == d
    decreases |d|
  {
    var m := DecimalValue(d);
    if |d| == 1 {
      assert m == d[0] as int - '0' as int;
      assert [DigitChar(m)] == d;
    } else {
      var front := d[..|d| - 1];
      assert front[0] == d[0];
      LeadingDigitPositive(front);
      CanonicalIsRendering(front);
      var v := DecimalValue(front);
      var c := d[|d| - 1] as int - '0' as int;
      assert m == v * 10 + c && 0 <= c < 10;
      assert m / 10 == v && m % 10 == c;
      assert NatToDecimal(m) == NatToDecimal(v) + [DigitChar(c)];
      assert d == front + [d[|d| - 1]];
    }
  }

  /**
   * Reads an integer in exactly the form `NumberToString` writes: canonical
   * digits, optionally after a `-` that is followed by a non-zero number.
   * Whatever it accepts is the rendering of the value it yields, so text
   * with a leading zero, `-0`, a lone `-` or nothing at all is refused.
   */
  function ParseInteger(s: string): (r: Option<int>)
    ensures r.Some? ==> s == NumberToString(r.value)
  {
    if |s| >= 2 && s[0] == '-' && Canonical(s[1..]) && s[1] != '0' then
      CanonicalIsRendering(s[1..]);
      LeadingDigitPositive(s[1..]);
      assert s == "-" + s[1..];
      Some(0 - DecimalValue(s[1..]) as int)
    else if Canonical(s) then
      CanonicalIsRendering(s);
      Some(DecimalValue(s))
    else None
  }

  /** Only the exact rendering is read: leading zeros, `-0`, a lone `-` and the empty text are refused. */
  lemma ParseIntegerRefusesOtherForms()
    ensures ParseInteger("007") == None && ParseInteger("-07") == None
    ensures ParseInteger("-0") == None && ParseInteger("-") == None && ParseInteger("") == None
    ensures ParseInteger("0") == Some(0) && ParseInteger("-7") == Some(-7)
  {
    assert !Canonical("007") && !Canonical("-07"[1..]);
    assert Canonical("0") && DecimalValue("0") == 0;
    assert "-7"[1..] == "7" && Canonical("7") && DecimalValue("7") == 7;
  }

  lemma NumberToStringRoundTrip(n: int)
    ensures ParseInteger(NumberToString(n)) == Some(n)
  {
    var s := NumberToString(n);
    if n < 0 {
      var digits := NatToDecimal(-n);
      assert s == "-" + digits && s[1..] == digits;
      assert Canonical(digits) && digits[0] != '0';
      DecimalRoundTrip(-n);
      assert ParseInteger(s) == Some(0 - DecimalValue(digits) as int);
    } else {
      assert Canonical(s);
      DecimalRoundTrip(n);
    }
  }

  /** Different integers render as different strings. */
  lemma NumberToStringInjective(a: int, b: int)
    ensures NumberToString(a) == NumberToString(b) <==> a == b
  {
    NumberToStringRoundTrip(a);
    NumberToStringRoundTrip(b);
  }

  // ---------------------------------------------------------------------------
  // String.prototype.substring

  /** Clamps a `substring` argument into `0..length`. */
  function ClampIndex(i: int, length: nat): (r: nat)
    ensures r <= length
    ensures 0 <= i <= length ==> r == i
  {
    if i < 0 then 0 else if i > length then length else i
  }

  /** `s.substring(start, end)`: both ends clamped, swapped when out of order. */
  function Substring(s: string, start: int, end: int): (r: string)
    ensures |r| <= |s|
    ensures 0 <= start <= end <= |s| ==> r == s[start..end]
    ensures 0 <= end <= start <= |s| ==> r == s[end..start]
    ensures start <= 0 && end >= 0 ==> r == s[..Min(end, |s|)]
  {
    var a := ClampIndex(start, |s|);
    var b := ClampIndex(end, |s|);
    s[Min(a, b)..Max(a, b)]
  }

  /** The position of the first `c` in `s`, or `|s|` if there is none. */
  function IndexOf(s: string, c: char): (i: nat)
    ensures i <= |s|
    ensures c !in s[..i]
    ensures i < |s| ==> s[i] == c
    decreases |s|
  {
    if s == [] then 0
    else if s[0] == c then 0
    else
      var j := IndexOf(s[1..], c);
      assert s[1..][..j] == s[1..j + 1];
      j + 1
  }

  lemma IndexOfIsFirst(s: string, c: char, i: nat)
    requires i < |s| && s[i] == c && c !in s[..i]
    ensures IndexOf(s, c) == i
  {
  }
}
