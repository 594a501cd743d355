/**
 * The part of JavaScript's number handling the site uses: reading a whole number from the
 * front of a string the way `parseInt(s, 10)` (and `parseFloat` on whole-number text) do,
 * and writing a whole number in decimal as `String(n)` and template literals do.
 */
module JsNumber {
  import JsText

  /** A JavaScript number restricted to whole values, or NaN. */
  datatype Num = Finite(value: int) | NaN {
    /** JavaScript truthiness of a number: NaN and 0 are falsy. */
    predicate Truthy() {
      Finite? && value != 0
    }
  }

  predicate IsDigit(c: char) {
    '0' <= c <= '9'
  }

  predicate AllDigits(s: string) {
    forall i :: 0 <= i < |s| ==> IsDigit(s[i])
  }

  function DigitValue(c: char): nat
    requires IsDigit(c)
  {
    c as int - '0' as int
  }

  /** The value of a string of decimal digits, most significant first. */
  function DigitsValue(s: string): nat
    requires AllDigits(s)
  {
    if s == [] then 0 else DigitsValue(s[..|s| - 1]) * 10 + DigitValue(s[|s| - 1])
  }

  /** The longest prefix of `s` made of decimal digits. */
  function LeadingDigits(s: string): (r: string)
    ensures AllDigits(r) && |r| <= |s| && r == s[..|r|]
    ensures |r| < |s| ==> !IsDigit(s[|r|])
  {
    if s != [] && IsDigit(s[0]) then [s[0]] + LeadingDigits(s[1..]) else []
  }

  /**
   * `parseInt(s, 10)`: leading white space is skipped, an optional sign is read, then the
   * longest run of digits; NaN when that run is empty.
   */
  function ParseInt(s: string): (r: Num)
    ensures r.Finite? ==> exists k :: 0 <= k < |s| && IsDigit(s[k])
  {
    var t := JsText.TrimStart(s);
    var r := ReadSigned(t);
    if r.Finite? then
      var k := SignedDigitAt(t);
      assert t[k] == s[|s| - |t| + k];
      r
    else r
  }

  /** What `parseInt` reads once the leading white space is gone: an optional sign, then the digit run. */
  function ReadSigned(t: string): (r: Num)
    ensures r.Finite? ==> t != [] && ((t[0] == '+' || t[0] == '-') ==> |t| > 1 && IsDigit(t[1]))
    ensures r.Finite? && !(t[0] == '+' || t[0] == '-') ==> IsDigit(t[0])
  {
    if t != [] && (t[0] == '-' || t[0] == '+') then Signed(t[0] == '-', ReadDigits(t[1..]))
    else ReadDigits(t)
  }

  /** The digit run at the front of `body` as a number, or NaN when there is none. */
  function ReadDigits(body: string): (r: Num)
    ensures r.Finite? <==> body != [] && IsDigit(body[0])
    ensures r.Finite? ==> r.value == DigitsValue(LeadingDigits(body))
  {
    var digits := LeadingDigits(body);
    if digits == [] then NaN else Finite(DigitsValue(digits))
  }

  /** The number read after a minus sign is negated; NaN stays NaN. */
  function Signed(negative: bool, n: Num): (r: Num)
    ensures r.NaN? <==> n.NaN?
    ensures r.Finite? ==> r.value == if negative then -n.value else n.value
  {
    if negative && n.Finite? then Finite(-n.value) else n
  }

  /** Where the first digit sits in text that `ReadSigned` reads as a number. */
  function SignedDigitAt(t: string): (k: nat)
    requires ReadSigned(t).Finite?
    ensures k < |t| && IsDigit(t[k])
  {
    if t[0] == '+' || t[0] == '-' then 1 else 0
  }

  function DigitChar(d: nat): (c: char)
    requires d < 10
    ensures IsDigit(c) && DigitValue(c) == d
  {
    ('0' as int + d) as char
  }

  /** `String(n)` for a non-negative whole number. */
  function NatToString(n: nat): (s: string)
    ensures s != [] && AllDigits(s)
  {
    if n < 10 then [DigitChar(n)] else NatToString(n / 10) + [DigitChar(n % 10)]
  }

  /** `String(i)` for any whole number. */
  function IntToString(i: int): (s: string)
    ensures s != []
  {
    if i < 0 then "-" + NatToString(-i) else NatToString(i)
  }

  lemma {:induction false} NatToStringValue(n: nat)
    ensures DigitsValue(NatToString(n)) == n
  {
    var s := NatToString(n);
    if n >= 10 {
      NatToStringValue(n / 10);
      assert s[..|s| - 1] == NatToString(n / 10);
    }
  }

  /** The digit run at the front of `digits + rest` is `digits` when `rest` does not start with a digit. */
  lemma {:induction false} LeadingDigitsOf(digits: string, rest: string)
    requires AllDigits(digits)
    requires rest == [] || !IsDigit(rest[0])
    ensures LeadingDigits(digits + rest) == digits
  {
    if digits == [] {
      assert digits + rest == rest;
    } else {
      assert (digits + rest)[0] == digits[0];
      assert (digits + rest)[1..] == digits[1..] + rest;
      LeadingDigitsOf(digits[1..], rest);
    }
  }

  /** A sign `parseInt` accepts in front of the digits: none, '+' or '-'. */
  predicate IsSignText(sign: string) {
    sign == "" || sign == "+" || sign == "-"
  }

  /**
   * How `parseInt` reads any text written as white space `ws`, an optional sign, and `rest`
   * (when there is no sign, `rest` starts with neither white space nor a sign): the digit run
   * at the front of `rest`, negated after a minus sign, whatever follows it.
   */
  lemma ParseIntOfParts(ws: string, sign: string, rest: string)
    requires JsText.IsBlank(ws) && IsSignText(sign)
    requires sign == "" && rest != [] ==> !JsText.IsSpace(rest[0]) && rest[0] != '+' && rest[0] != '-'
    ensures ParseInt(ws + sign + rest) == Signed(sign == "-", ReadDigits(rest))
  {
    TrimStartOfParts(ws, sign, rest);
    ReadSignedOfParts(sign, rest);
  }

  /** `parseInt` gives NaN exactly when no digit follows the white space and the optional sign. */
  lemma ParseIntNaN(ws: string, sign: string, rest: string)
    requires JsText.IsBlank(ws) && IsSignText(sign)
    requires sign == "" && rest != [] ==> !JsText.IsSpace(rest[0]) && rest[0] != '+' && rest[0] != '-'
    ensures ParseInt(ws + sign + rest) == NaN <==> rest == [] || !IsDigit(rest[0])
  {
    ParseIntOfParts(ws, sign, rest);
  }

  /** `ReadSigned` on an optional sign followed by `rest` reads the digit run at the front of `rest`. */
  lemma ReadSignedOfParts(sign: string, rest: string)
    requires IsSignText(sign)
    requires sign == "" && rest != [] ==> rest[0] != '+' && rest[0] != '-'
    ensures ReadSigned(sign + rest) == Signed(sign == "-", ReadDigits(rest))
  {
    if sign == "" {
      assert sign + rest == rest;
    } else {
      var t := sign + rest;
      assert t[0] == sign[0] && t[1..] == rest;
    }
  }

  /** White space in front of a sign, or of text starting with neither white space nor a sign, is what `TrimStart` removes. */
  lemma TrimStartOfParts(ws: string, sign: string, rest: string)
    requires JsText.IsBlank(ws) && IsSignText(sign)
    requires sign == "" && rest != [] ==> !JsText.IsSpace(rest[0]) && rest[0] != '+' && rest[0] != '-'
    ensures JsText.TrimStart(ws + sign + rest) == sign + rest
  {
    AppendAssoc(ws, sign, rest);
    if sign + rest != [] {
      assert (sign + rest)[0] == if sign != "" then sign[0] else rest[0];
      JsText.TrimStartOf(ws, sign + rest);
    }
  }

  /** Every text splits as `ParseIntOfParts` needs, so that lemma covers every input. */
  lemma ParseIntSplit(s: string) returns (ws: string, sign: string, rest: string)
    ensures s == ws + sign + rest
    ensures JsText.IsBlank(ws) && IsSignText(sign)
    ensures sign == "" && rest != [] ==> !JsText.IsSpace(rest[0]) && rest[0] != '+' && rest[0] != '-'
  {
    var t := JsText.TrimStart(s);
    ws := s[..|s| - |t|];
    assert s == ws + t;
    if t != [] && (t[0] == '+' || t[0] == '-') {
      sign, rest := t[..1], t[1..];
    } else {
      sign, rest := "", t;
    }
    assert t == sign + rest;
    AppendAssoc(ws, sign, rest);
  }

  lemma AppendAssoc(a: string, b: string, c: string)
    ensures a + b + c == a + (b + c)
  {
  }

  /** `parseInt(ws + sign + digits + rest)` is the signed value of `digits` when `rest` starts with no digit. */
  lemma ParseIntOfNumeral(ws: string, sign: string, digits: string, rest: string)
    requires JsText.IsBlank(ws) && IsSignText(sign)
    requires digits != [] && AllDigits(digits)
    requires rest == [] || !IsDigit(rest[0])
    ensures var v: int := DigitsValue(digits);
      ParseInt(ws + sign + digits + rest) == Finite(if sign == "-" then -v else v)
  {
    var s := ws + sign + digits + rest;
    AppendAssoc(ws + sign, digits, rest);
    LeadingDigitsOf(digits, rest);
    ParseIntOfDigitRun(s, ws, sign, digits + rest, digits);
  }

  /** The same, for text `s` made of `ws`, `sign` and `tail`, where `tail`'s leading digit run is `digits`. */
  lemma ParseIntOfDigitRun(s: string, ws: string, sign: string, tail: string, digits: string)
    requires JsText.IsBlank(ws) && IsSignText(sign) && s == ws + sign + tail
    requires digits != [] && LeadingDigits(tail) == digits
    ensures var v: int := DigitsValue(digits);
      ParseInt(s) == Finite(if sign == "-" then -v else v)
  {
    assert tail[0] == digits[0];
    ParseIntOfParts(ws, sign, tail);
    assert ReadDigits(tail) == Finite(DigitsValue(digits));
    assert ParseInt(s) == Signed(sign == "-", Finite(DigitsValue(digits)));
  }

  /** A digit run is its own leading digit run. */
  lemma {:induction false} LeadingDigitsOfDigits(s: string)
    requires AllDigits(s)
    ensures LeadingDigits(s) == s
  {
    if s != [] {
      LeadingDigitsOfDigits(s[1..]);
    }
  }

  /** Reading back what `NatToString` wrote gives the number again. */
  lemma NatToStringRoundTrip(n: nat)
    ensures ParseInt(NatToString(n)) == Finite(n)
  {
    var s := NatToString(n);
    NatToStringValue(n);
    LeadingDigitsOfDigits(s);
    assert s == "" + "" + s;
    ParseIntOfDigitRun(s, "", "", s, s);
  }

  /** Reading back a minus sign followed by what `NatToString` wrote gives the negated number. */
  lemma NegatedRoundTrip(n: nat)
    ensures ParseInt("-" + NatToString(n)) == Finite(-(n as int))
  {
    var d := NatToString(n);
    var s := "-" + d;
    NatToStringValue(n);
    LeadingDigitsOfDigits(d);
    assert s == "" + "-" + d;
    ParseIntOfDigitRun(s, "", "-", d, d);
  }

  /** `parseInt(String(i), 10) === i` for every whole number; so `IntToString` is one-to-one. */
  lemma IntToStringRoundTrip(i: int)
    ensures ParseInt(IntToString(i)) == Finite(i)
  {
    if i < 0 {
      var n: nat := -i;
      assert IntToString(i) == "-" + NatToString(n);
      NegatedRoundTrip(n);
    } else {
      NatToStringRoundTrip(i);
    }
  }

  lemma IntToStringInjective(i: int, j: int)
    requires IntToString(i) == IntToString(j)
    ensures i == j
  {
    IntToStringRoundTrip(i);
    IntToStringRoundTrip(j);
  }
}
