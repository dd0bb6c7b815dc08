/**
 `parseInt(text, 10)` as the time-frame handler uses it (ECMA-262, 2023
 edition, section 19.2.5): leading white space is skipped, one optional sign
 is read, then the longest run of decimal digits; no digit at all gives NaN.
 The numeric result is modelled as an unbounded integer: every digit run too
 long for an exact double is far above the accepted range either way.
 */
module JsParseInt {

  /** The outcome of `parseInt`: NaN or an integer value. */
  datatype Parsed = NaN | Num(value: int)

  predicate IsDigit(c: char) {
    '0' <= c <= '9'
  }

  /** Every character is a decimal digit. */
  predicate AllDigits(s: string) {
    forall i :: 0 <= i < |s| ==> IsDigit(s[i])
  }

  /** The value of one decimal digit character. */
  function DigitValue(c: char): (d: nat)
    requires IsDigit(c)
    ensures d < 10
  {
    (c as int) - ('0' as int)
  }

  /**
   The characters `parseInt` skips before the number: the white space and
   line terminators of ECMA-262 (sections 12.2 and 12.3), space separators included.
   */
  predicate IsStrWhiteSpace(c: char) {
    || c == '\t' || c == '\n' || c == '\U{000B}' || c == '\U{000C}' || c == '\r' || c == ' '
    || c == '\U{00A0}' || c == '\U{1680}' || ('\U{2000}' <= c <= '\U{200A}')
    || c == '\U{2028}' || c == '\U{2029}' || c == '\U{202F}' || c == '\U{205F}'
    || c == '\U{3000}' || c == '\U{FEFF}'
  }

  /** Every character is one that `parseInt` skips. */
  predicate AllWhiteSpace(s: string) {
    forall i :: 0 <= i < |s| ==> IsStrWhiteSpace(s[i])
  }

  /** Drops the leading white space. */
  function TrimStart(s: string): (r: string)
    ensures |r| == 0 || !IsStrWhiteSpace(r[0])
  {
    if |s| != 0 && IsStrWhiteSpace(s[0]) then TrimStart(s[1..]) else s
  }

  /** Trimming removes a prefix made only of white space, and nothing else. */
  lemma {:induction false} TrimStartDropsWhiteSpace(s: string) returns (ws: string)
    ensures AllWhiteSpace(ws)
    ensures s == ws + TrimStart(s)
  {
    if |s| != 0 && IsStrWhiteSpace(s[0]) {
      var w := TrimStartDropsWhiteSpace(s[1..]);
      ws := [s[0]] + w;
      assert s == [s[0]] + s[1..];
    } else {
      ws := "";
    }
  }

  /** The length of the run of digits that starts `s`. */
  function DigitRun(s: string): (n: nat)
    ensures n <= |s|
    ensures AllDigits(s[..n])
    ensures n == |s| || !IsDigit(s[n])
  {
    if |s| == 0 || !IsDigit(s[0]) then 0 else 1 + DigitRun(s[1..])
  }

  /** The value of a run of digits, most significant first; leading zeros add nothing. */
  function DigitsValue(ds: string): (v: nat)
    requires AllDigits(ds)
  {
    if |ds| == 0 then 0 else DigitsValue(ds[..|ds| - 1]) * 10 + DigitValue(ds[|ds| - 1])
  }

  /** `parseInt(s, 10)`. */
  function ParseInt(s: string): (r: Parsed)
    ensures r.NaN? <==> DigitRun(Unsigned(TrimStart(s))) == 0
  {
    var body := TrimStart(s);
    var digits := Unsigned(body);
    var n := DigitRun(digits);
    if n == 0 then NaN
    else if body[0] == '-' then Num(0 - DigitsValue(digits[..n]))
    else Num(DigitsValue(digits[..n]))
  }

  /** What follows one optional leading sign. */
  function Unsigned(body: string): (r: string)
    ensures |body| != 0 && (body[0] == '-' || body[0] == '+') ==> r == body[1..]
    ensures |body| == 0 || (body[0] != '-' && body[0] != '+') ==> r == body
  {
    if |body| != 0 && (body[0] == '-' || body[0] == '+') then body[1..] else body
  }

  /** The digit character of a value below ten. */
  function DigitChar(d: nat): (c: char)
    requires d < 10
    ensures IsDigit(c) && DigitValue(c) == d
  {
    (('0' as int) + d) as char
  }

  /** The shortest decimal spelling of a natural number. */
  function Decimal(n: nat): (s: string)
    ensures |s| != 0
    ensures AllDigits(s)
  {
    if n < 10 then [DigitChar(n)] else Decimal(n / 10) + [DigitChar(n % 10)]
  }

  /** The spelling of an integer, with a minus sign when it is negative. */
  function Show(n: int): (s: string)
    ensures n < 0 <==> |s| != 0 && s[0] == '-'
  {
    if n < 0 then ['-'] + Decimal(-n) else Decimal(n)
  }

  /** Reading a decimal spelling back gives the number. */
  lemma {:induction false} DecimalValue(n: nat)
    ensures DigitsValue(Decimal(n)) == n
  {
    if n >= 10 {
      var ds := Decimal(n);
      assert ds[..|ds| - 1] == Decimal(n / 10);
      DecimalValue(n / 10);
    }
  }

  /** A digit run ends exactly where the digits end and something else begins. */
  lemma {:induction false} DigitRunOfDigits(ds: string, rest: string)
    requires AllDigits(ds)
    requires |rest| == 0 || !IsDigit(rest[0])
    ensures DigitRun(ds + rest) == |ds|
  {
    if |ds| != 0 {
      assert (ds + rest)[1..] == ds[1..] + rest;
      DigitRunOfDigits(ds[1..], rest);
    }
  }

  /** Leading white space is skipped whatever follows it. */
  lemma {:induction false} TrimStartSkipsWhiteSpace(ws: string, s: string)
    requires AllWhiteSpace(ws)
    ensures TrimStart(ws + s) == TrimStart(s)
  {
    if |ws| == 0 {
      assert ws + s == s;
    } else {
      assert (ws + s)[0] == ws[0];
      assert (ws + s)[1..] == ws[1..] + s;
      TrimStartSkipsWhiteSpace(ws[1..], s);
      calc {
        TrimStart(ws + s);
        TrimStart((ws + s)[1..]);
        TrimStart(ws[1..] + s);
        TrimStart(s);
      }
    }
  }

  /** Leading white space does not change what `parseInt` reads. */
  lemma ParseSkipsWhiteSpace(ws: string, s: string)
    requires AllWhiteSpace(ws)
    ensures ParseInt(ws + s) == ParseInt(s)
  {
    TrimStartSkipsWhiteSpace(ws, s);
  }

  /** Trimming leaves a text alone that does not start with white space. */
  lemma StartsClear(text: string)
    requires |text| != 0 && !IsStrWhiteSpace(text[0])
    ensures TrimStart(text) == text
  {
  }

  /** Once white space and sign are settled, the digit run decides the value. */
  lemma ParseOfDigits(text: string, digits: string, ds: string)
    requires TrimStart(text) == text && Unsigned(text) == digits
    requires 0 < |ds| == DigitRun(digits) && digits[..|ds|] == ds
    ensures ParseInt(text) == Num(if text[0] == '-' then 0 - DigitsValue(ds) else DigitsValue(ds))
  {
  }

  /** A run of digits reads as its value, up to the first non-digit. */
  lemma ParseUnsignedDigits(ds: string, rest: string)
    requires |ds| != 0 && AllDigits(ds)
    requires |rest| == 0 || !IsDigit(rest[0])
    ensures ParseInt(ds + rest) == Num(DigitsValue(ds))
  {
    var text := ds + rest;
    assert TrimStart(text) == text && Unsigned(text) == text && text[0] != '-' by {
      assert text[0] == ds[0] && IsDigit(ds[0]);
      StartsClear(text);
    }
    assert DigitRun(text) == |ds| && text[..|ds|] == ds by {
      DigitRunOfDigits(ds, rest);
    }
    ParseOfDigits(text, text, ds);
  }

  /** A text that starts with a sign is not trimmed, and the sign is all `Unsigned` drops. */
  lemma SignedText(sign: char, digits: string)
    requires sign == '-' || sign == '+'
    ensures TrimStart([sign] + digits) == [sign] + digits
    ensures Unsigned([sign] + digits) == digits
    ensures ([sign] + digits)[0] == sign
  {
    var text := [sign] + digits;
    assert text[0] == sign && text[1..] == digits;
    StartsClear(text);
  }

  /** A sign followed by a run of digits reads as the signed value. */
  lemma ParseSignedDigits(sign: char, ds: string, rest: string)
    requires sign == '-' || sign == '+'
    requires |ds| != 0 && AllDigits(ds)
    requires |rest| == 0 || !IsDigit(rest[0])
    ensures ParseInt([sign] + (ds + rest)) == Num(if sign == '-' then 0 - DigitsValue(ds) else DigitsValue(ds))
  {
    var text := [sign] + (ds + rest);
    var digits := ds + rest;
    SignedText(sign, digits);
    assert DigitRun(digits) == |ds| && digits[..|ds|] == ds by {
      DigitRunOfDigits(ds, rest);
    }
    ParseOfDigits(text, digits, ds);
  }

  /**
   `parseInt` reads back any integer's spelling, after any leading white space
   and before anything that does not start with a digit: "12.7" reads as 12.
   */
  lemma ParseShow(ws: string, n: int, rest: string)
    requires AllWhiteSpace(ws)
    requires |rest| == 0 || !IsDigit(rest[0])
    ensures ParseInt(ws + Show(n) + rest) == Num(n)
  {
    var m := if n < 0 then -n else n;
    var ds := Decimal(m);
    DecimalValue(m);
    var text := if n < 0 then ['-'] + (ds + rest) else ds + rest;
    assert ws + Show(n) + rest == ws + text;
    assert ParseInt(text) == Num(n) by {
      if n < 0 {
        ParseSignedDigits('-', ds, rest);
      } else {
        ParseUnsignedDigits(ds, rest);
      }
    }
    ParseSkipsWhiteSpace(ws, text);
  }

  /** A text with no digit right after its white space and one optional sign is NaN. */
  lemma ParseNoDigits(ws: string, sign: string, rest: string)
    requires AllWhiteSpace(ws)
    requires sign == "" || sign == "-" || sign == "+"
    requires |rest| == 0 || !IsDigit(rest[0])
    requires sign == "" && |rest| != 0 ==> !IsStrWhiteSpace(rest[0]) && rest[0] != '-' && rest[0] != '+'
    ensures ParseInt(ws + (sign + rest)) == NaN
  {
    var text := sign + rest;
    ParseSkipsWhiteSpace(ws, text);
    if sign != "" {
      assert text[0] == sign[0] && text[1..] == rest;
      StartsClear(text);
      assert Unsigned(text) == rest;
    } else if |rest| != 0 {
      assert text == rest;
      StartsClear(text);
      assert Unsigned(text) == rest;
    }
  }

  /** A run of digits after white space and one optional sign reads as its signed value. */
  lemma ParseNumber(ws: string, sign: string, ds: string, rest: string)
    requires AllWhiteSpace(ws)
    requires sign == "" || sign == "-" || sign == "+"
    requires |ds| != 0 && AllDigits(ds)
    requires |rest| == 0 || !IsDigit(rest[0])
    ensures ParseInt(ws + (sign + (ds + rest))) == Num(if sign == "-" then 0 - DigitsValue(ds) else DigitsValue(ds))
  {
    var tail := sign + (ds + rest);
    if sign == "" {
      assert tail == ds + rest;
      ParseUnsignedDigits(ds, rest);
    } else {
      assert sign == [sign[0]];
      assert sign == "-" <==> sign[0] == '-';
      ParseSignedDigits(sign[0], ds, rest);
    }
    ParseSkipsWhiteSpace(ws, tail);
  }

  /**
   For any split of a text into white space, at most one sign, a run of digits
   and a rest that does not continue the run (`SplitExists` shows every text has
   one), `parseInt` is NaN exactly when the run is empty and otherwise the run's
   value, negated after a minus sign.
   */
  lemma ParseDecomposed(ws: string, sign: string, ds: string, rest: string)
    requires AllWhiteSpace(ws)
    requires sign == "" || sign == "-" || sign == "+"
    requires AllDigits(ds)
    requires |rest| == 0 || !IsDigit(rest[0])
    requires sign == "" && |ds| == 0 && |rest| != 0 ==> !IsStrWhiteSpace(rest[0]) && rest[0] != '-' && rest[0] != '+'
    ensures ParseInt(ws + (sign + (ds + rest))) ==
      if |ds| == 0 then NaN
      else if sign == "-" then Num(0 - DigitsValue(ds))
      else Num(DigitsValue(ds))
  {
    if |ds| == 0 {
      assert ds + rest == rest by {
        assert ds == [];
      }
      ParseNoDigits(ws, sign, rest);
    } else {
      ParseNumber(ws, sign, ds, rest);
    }
  }

  /** The optional sign that starts `body`, as a string. */
  function SignOf(body: string): (sign: string)
    ensures sign == "" || sign == "-" || sign == "+"
    ensures body == sign + Unsigned(body)
    ensures sign == "" ==> |body| == 0 || (body[0] != '-' && body[0] != '+')
  {
    if |body| != 0 && body[0] == '-' then "-"
    else if |body| != 0 && body[0] == '+' then "+"
    else ""
  }

  /** The split that `ParseDecomposed` is stated over exists for every text. */
  lemma SplitExists(s: string) returns (ws: string, sign: string, ds: string, rest: string)
    ensures s == ws + (sign + (ds + rest))
    ensures AllWhiteSpace(ws)
    ensures sign == "" || sign == "-" || sign == "+"
    ensures AllDigits(ds)
    ensures |rest| == 0 || !IsDigit(rest[0])
    ensures sign == "" && |ds| == 0 && |rest| != 0 ==> !IsStrWhiteSpace(rest[0]) && rest[0] != '-' && rest[0] != '+'
  {
    var body := TrimStart(s);
    ws := TrimStartDropsWhiteSpace(s);
    sign := SignOf(body);
    var digits := Unsigned(body);
    var n := DigitRun(digits);
    ds, rest := digits[..n], digits[n..];
    assert digits == ds + rest;
    if sign == "" && n == 0 {
      assert rest == body;
    }
  }

  /** `parseInt` of any text, read off its split: NaN without digits, else the signed value of the run. */
  lemma ParseCharacterised(s: string) returns (ws: string, sign: string, ds: string, rest: string)
    ensures s == ws + (sign + (ds + rest))
    ensures AllWhiteSpace(ws) && (sign == "" || sign == "-" || sign == "+")
    ensures AllDigits(ds) && (|rest| == 0 || !IsDigit(rest[0]))
    ensures sign == "" && |ds| == 0 && |rest| != 0 ==> !IsStrWhiteSpace(rest[0]) && rest[0] != '-' && rest[0] != '+'
    ensures ParseInt(s) ==
      if |ds| == 0 then NaN
      else if sign == "-" then Num(0 - DigitsValue(ds))
      else Num(DigitsValue(ds))
  {
    ws, sign, ds, rest := SplitExists(s);
    ParseDecomposed(ws, sign, ds, rest);
  }
}
