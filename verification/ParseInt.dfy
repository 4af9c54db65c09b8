/** `parseInt(text, 10)` and the decimal text of a number, as a cursor travels in a URL. */
module ParseInt {

  datatype Parsed = NaN | Int(value: int)

  /** The WhiteSpace and LineTerminator code points of ECMA-262. */
  predicate IsSpace(c: char) {
    || c in "\t\U{000B}\U{000C} \U{00A0}\U{FEFF}\n\r\U{2028}\U{2029}"
    || c in "\U{1680}\U{202F}\U{205F}\U{3000}" || '\U{2000}' <= c <= '\U{200A}'
  }

  predicate IsDigit(c: char) {
    '0' <= c <= '9'
  }

  function DigitValue(c: char): nat
    requires IsDigit(c)
  {
    c as int - '0' as int
  }

  /** The longest prefix of digits. */
  function DigitPrefix(text: string): string {
    if text == "" || !IsDigit(text[0]) then "" else [text[0]] + DigitPrefix(text[1..])
  }

  predicate AllDigits(text: string) {
    forall i :: 0 <= i < |text| ==> IsDigit(text[i])
  }

  function ValueOf(digits: string): nat
    requires AllDigits(digits)
  {
    if digits == "" then 0 else 10 * ValueOf(digits[..|digits| - 1]) + DigitValue(digits[|digits| - 1])
  }

  function TrimStart(text: string): string {
    if text != "" && IsSpace(text[0]) then TrimStart(text[1..]) else text
  }

  lemma DigitPrefixIsDigits(text: string)
    ensures AllDigits(DigitPrefix(text))
  {
  }

  /** Leading white space, an optional sign, then digits; whatever follows is ignored. */
  function Parse(text: string): Parsed {
    var t := TrimStart(text);
    var negative := t != "" && t[0] == '-';
    var rest := if t != "" && (t[0] == '-' || t[0] == '+') then t[1..] else t;
    var digits := DigitPrefix(rest);
    DigitPrefixIsDigits(rest);
    if digits == "" then NaN
    else if negative then Int(-(ValueOf(digits) as int)) else Int(ValueOf(digits))
  }

  function Decimal(n: nat): (text: string)
    ensures text != "" && AllDigits(text)
  {
    var last := [('0' as int + n % 10) as char];
    if n < 10 then last else Decimal(n / 10) + last
  }

  lemma {:induction false} DigitPrefixAll(text: string)
    requires AllDigits(text)
    ensures DigitPrefix(text) == text
  {
    if text != "" {
      DigitPrefixAll(text[1..]);
      assert text == [text[0]] + text[1..];
    }
  }

  lemma {:induction false} ValueOfDecimal(n: nat)
    ensures ValueOf(Decimal(n)) == n
  {
    var text := Decimal(n);
    var front, last := text[..|text| - 1], text[|text| - 1];
    assert DigitValue(last) == n % 10;
    if n < 10 {
      assert front == "";
    } else {
      assert front == Decimal(n / 10);
      ValueOfDecimal(n / 10);
    }
  }

  /** Round trip: a number printed into a URL parses back to itself. */
  lemma {:induction false} ParseDecimal(n: nat)
    ensures Parse(Decimal(n)) == Int(n)
  {
    var text := Decimal(n);
    assert IsDigit(text[0]);
    assert TrimStart(text) == text;
    DigitPrefixAll(text);
    ValueOfDecimal(n);
  }

  lemma {:induction false} DecimalInjective(m: nat, n: nat)
    requires Decimal(m) == Decimal(n)
    ensures m == n
  {
    ValueOfDecimal(m);
    ValueOfDecimal(n);
  }

  lemma {:induction false} ParseNegative(n: nat)
    ensures Parse("-" + Decimal(n)) == Int(0 - n)
  {
    var text := "-" + Decimal(n);
    assert TrimStart(text) == text;
    assert text[1..] == Decimal(n);
    DigitPrefixAll(Decimal(n));
    ValueOfDecimal(n);
  }

  // --- Exactly what is read ------------------------------------------------------------------------

  predicate AllSpaces(text: string) {
    forall i :: 0 <= i < |text| ==> IsSpace(text[i])
  }

  /** The text is white space, a sign or none, at least one digit, and a rest that starts with no digit. */
  predicate Splits(text: string, spaces: string, sign: string, digits: string, rest: string) {
    && text == spaces + (sign + (digits + rest))
    && AllSpaces(spaces) && sign in ["", "+", "-"]
    && digits != "" && AllDigits(digits)
    && (rest == "" || !IsDigit(rest[0]))
  }

  function Signed(sign: string, digits: string): int
    requires AllDigits(digits)
  {
    if sign == "-" then -(ValueOf(digits) as int) else ValueOf(digits)
  }

  lemma {:induction false} TrimSpaces(spaces: string, text: string)
    requires AllSpaces(spaces) && (text == "" || !IsSpace(text[0]))
    ensures TrimStart(spaces + text) == text
  {
    if spaces == "" {
      assert spaces + text == text;
    } else {
      assert (spaces + text)[1..] == spaces[1..] + text;
      TrimSpaces(spaces[1..], text);
    }
  }

  lemma {:induction false} PrefixOfDigits(digits: string, rest: string)
    requires AllDigits(digits) && (rest == "" || !IsDigit(rest[0]))
    ensures DigitPrefix(digits + rest) == digits
  {
    if digits == "" {
      assert digits + rest == rest;
    } else {
      assert (digits + rest)[1..] == digits[1..] + rest;
      PrefixOfDigits(digits[1..], rest);
    }
  }

  lemma {:induction false} Trimmed(text: string) returns (spaces: string)
    ensures text == spaces + TrimStart(text) && AllSpaces(spaces)
  {
    spaces := "";
    if text != "" && IsSpace(text[0]) {
      var more := Trimmed(text[1..]);
      spaces := [text[0]] + more;
    }
  }

  lemma {:induction false} DigitsThenRest(text: string) returns (rest: string)
    ensures text == DigitPrefix(text) + rest && (rest == "" || !IsDigit(rest[0]))
  {
    rest := text;
    if text != "" && IsDigit(text[0]) {
      rest := DigitsThenRest(text[1..]);
    }
  }

  lemma {:induction false} ParseSplit(text: string, spaces: string, sign: string, digits: string, rest: string)
    requires Splits(text, spaces, sign, digits, rest)
    ensures Parse(text) == Int(Signed(sign, digits))
  {
    var t := sign + (digits + rest);
    assert IsDigit(digits[0]) && t[0] == (if sign == "" then digits[0] else sign[0]);
    TrimSpaces(spaces, t);
    assert (if sign == "" then t else t[1..]) == digits + rest;
    PrefixOfDigits(digits, rest);
  }

  lemma {:induction false} ParseSplits(text: string)
    returns (spaces: string, sign: string, digits: string, rest: string)
    requires Parse(text).Int?
    ensures Splits(text, spaces, sign, digits, rest)
  {
    spaces := Trimmed(text);
    var t := TrimStart(text);
    sign := if t != "" && t[0] == '-' then "-" else if t != "" && t[0] == '+' then "+" else "";
    digits := DigitPrefix(t[|sign|..]);
    rest := DigitsThenRest(t[|sign|..]);
    DigitPrefixIsDigits(t[|sign|..]);
    assert t == sign + t[|sign|..];
  }

  /** Exactly what a text is read as: it is the number `value` if and only if it splits into white space, a sign
      or none, the digits of that number and a rest that starts with no digit. Otherwise it is no number. */
  lemma {:induction false} ReadsIff(text: string, value: int)
    ensures Parse(text) == Int(value) <==>
            exists spaces, sign, digits, rest ::
              Splits(text, spaces, sign, digits, rest) && Signed(sign, digits) == value
    ensures Parse(text) == NaN <==> !exists spaces, sign, digits, rest :: Splits(text, spaces, sign, digits, rest)
  {
    if Parse(text).Int? {
      var spaces, sign, digits, rest := ParseSplits(text);
      ParseSplit(text, spaces, sign, digits, rest);
    }
    forall spaces, sign, digits, rest | Splits(text, spaces, sign, digits, rest)
      ensures Parse(text) == Int(Signed(sign, digits))
    {
      ParseSplit(text, spaces, sign, digits, rest);
    }
  }
}
