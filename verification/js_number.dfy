/** JavaScript's global `parseInt(string)` with no radix argument, as the
    listener uses it to read the offset of a suffix-replace chunk
    (section 19.2.5 of ECMA-262): skip leading white space, take an optional
    sign, switch to radix 16 after a `0x`/`0X` prefix, and read the longest
    run of digits; no digits gives `NaN`, here `None`. The result is an
    unbounded integer: every value the listener compares against a line
    length compares the same way as the IEEE double JavaScript computes. */
module JsNumber {
  import opened Wrappers

  /** WhiteSpace and LineTerminator code points (section 12.2 and 12.3 of
      ECMA-262), the characters `parseInt` trims from the front. */
  predicate IsWhiteSpace(c: char) {
    var n := c as int;
    n == 0x09 || n == 0x0A || n == 0x0B || n == 0x0C || n == 0x0D
    || n == 0x20 || n == 0xA0 || n == 0x1680
    || (0x2000 <= n <= 0x200A) || n == 0x2028 || n == 0x2029
    || n == 0x202F || n == 0x205F || n == 0x3000 || n == 0xFEFF
  }

  /** `s` with its leading white space removed. */
  function TrimStart(s: string): string {
    if |s| > 0 && IsWhiteSpace(s[0]) then TrimStart(s[1..]) else s
  }

  /** `TrimStart` drops exactly the leading white space. */
  lemma {:induction false} TrimStartDropsWhiteSpace(s: string)
    ensures var r := TrimStart(s);
            && |r| <= |s| && r == s[|s| - |r|..]
            && (forall j :: 0 <= j < |s| - |r| ==> IsWhiteSpace(s[j]))
            && (|r| > 0 ==> !IsWhiteSpace(r[0]))
    decreases |s|
  {
    if |s| > 0 && IsWhiteSpace(s[0]) {
      TrimStartDropsWhiteSpace(s[1..]);
    }
  }

  /** Digit value of `0-9`, `a-z`, `A-Z` (0 to 35); 36 for anything else. */
  function DigitValue(c: char): nat {
    if '0' <= c <= '9' then c as int - '0' as int
    else if 'a' <= c <= 'z' then c as int - 'a' as int + 10
    else if 'A' <= c <= 'Z' then c as int - 'A' as int + 10
    else 36
  }

  predicate IsDigit(c: char, radix: nat) {
    DigitValue(c) < radix
  }

  /** Length of the longest prefix of `s` made of radix-`radix` digits. */
  function DigitRun(s: string, radix: nat): (n: nat)
    ensures n <= |s|
  {
    if |s| == 0 || !IsDigit(s[0], radix) then 0 else 1 + DigitRun(s[1..], radix)
  }

  /** `DigitRun` is the longest all-digit prefix. */
  lemma {:induction false} DigitRunLongest(s: string, radix: nat)
    ensures forall j :: 0 <= j < DigitRun(s, radix) ==> IsDigit(s[j], radix)
    ensures DigitRun(s, radix) < |s| ==> !IsDigit(s[DigitRun(s, radix)], radix)
    decreases |s|
  {
    if |s| > 0 && IsDigit(s[0], radix) {
      DigitRunLongest(s[1..], radix);
    }
  }

  /** An all-digit string is its own digit run. */
  lemma {:induction false} DigitRunAll(s: string, radix: nat)
    requires forall j :: 0 <= j < |s| ==> IsDigit(s[j], radix)
    ensures DigitRun(s, radix) == |s|
    decreases |s|
  {
    if |s| > 0 {
      DigitRunAll(s[1..], radix);
    }
  }

  /** Positional value of a digit string, most significant digit first. */
  function ValueOf(digits: string, radix: nat): nat {
    if |digits| == 0 then 0
    else ValueOf(digits[..|digits| - 1], radix) * radix + DigitValue(digits[|digits| - 1])
  }

  /** `parseInt(s)`; `None` is `NaN`. Minus zero is 0: both are falsy. */
  function ParseInt(s: string): Option<int> {
    var t := TrimStart(s);
    var negative := |t| > 0 && t[0] == '-';
    var unsigned := if |t| > 0 && (t[0] == '-' || t[0] == '+') then t[1..] else t;
    var hex := |unsigned| >= 2 && unsigned[0] == '0' && (unsigned[1] == 'x' || unsigned[1] == 'X');
    var radix := if hex then 16 else 10;
    var body := if hex then unsigned[2..] else unsigned;
    var n := DigitRun(body, radix);
    if n == 0 then None
    else
      var v: int := ValueOf(body[..n], radix);
      Some(if negative then -v else v)
  }

  function DigitChar(d: nat): (c: char)
    requires d < 10
    ensures '0' <= c <= '9' && DigitValue(c) == d
  {
    ('0' as int + d) as char
  }

  /** The decimal numeral of `n` (JavaScript `${n}` for a non-negative
      integer): digits only, no leading zero. */
  function DecimalString(n: nat): (s: string)
    ensures |s| >= 1
    ensures forall j :: 0 <= j < |s| ==> '0' <= s[j] <= '9'
    ensures n > 0 <==> s[0] != '0'
    ensures n == 0 ==> s == "0"
    decreases n
  {
    if n < 10 then [DigitChar(n)] else DecimalString(n / 10) + [DigitChar(n % 10)]
  }

  /** Reading the numeral back gives the number. */
  lemma {:induction false} ValueOfDecimal(n: nat)
    ensures ValueOf(DecimalString(n), 10) == n
    decreases n
  {
    var s := DecimalString(n);
    if n >= 10 {
      assert s[..|s| - 1] == DecimalString(n / 10);
      ValueOfDecimal(n / 10);
    }
  }

  /** `parseInt` inverts the decimal rendering of a non-negative integer. */
  lemma ParseDecimal(n: nat)
    ensures ParseInt(DecimalString(n)) == Some(n)
  {
    ParseIntStopsAtNonDigit(n, "");
    assert DecimalString(n) + "" == DecimalString(n);
  }

  /** The cases `parseInt` refuses: an empty string, and one whose first
      character is neither white space, a sign nor a decimal digit. */
  lemma ParseIntNaN(s: string)
    ensures ParseInt("") == None
    ensures |s| > 0 && !IsWhiteSpace(s[0]) && s[0] != '-' && s[0] != '+' && !IsDigit(s[0], 10) ==> ParseInt(s) == None
  {
    assert TrimStart("") == "";
  }

  /** A leading `-` negates the value read after it and a leading `+`
      changes nothing. */
  lemma ParseIntSign(t: string)
    requires t == "" || (!IsWhiteSpace(t[0]) && t[0] != '-' && t[0] != '+')
    ensures ParseInt("-" + t) == if ParseInt(t).Some? then Some(-ParseInt(t).value) else None
    ensures ParseInt("+" + t) == ParseInt(t)
  {
    assert TrimStart("-" + t) == "-" + t;
    assert TrimStart("+" + t) == "+" + t;
    assert TrimStart(t) == t;
    assert ("-" + t)[1..] == t;
    assert ("+" + t)[1..] == t;
  }

  lemma {:induction false} TrimStartSkips(ws: string, s: string)
    requires forall j :: 0 <= j < |ws| ==> IsWhiteSpace(ws[j])
    ensures TrimStart(ws + s) == TrimStart(s)
    decreases |ws|
  {
    if |ws| > 0 {
      assert (ws + s)[0] == ws[0];
      assert (ws + s)[1..] == ws[1..] + s;
      TrimStartSkips(ws[1..], s);
    } else {
      assert ws + s == s;
    }
  }

  /** Leading white space is skipped. */
  lemma ParseIntSkipsWhiteSpace(ws: string, s: string)
    requires forall j :: 0 <= j < |ws| ==> IsWhiteSpace(ws[j])
    ensures ParseInt(ws + s) == ParseInt(s)
  {
    TrimStartSkips(ws, s);
  }

  lemma {:induction false} DigitRunStops(d: string, rest: string, radix: nat)
    requires forall j :: 0 <= j < |d| ==> IsDigit(d[j], radix)
    requires rest == "" || !IsDigit(rest[0], radix)
    ensures DigitRun(d + rest, radix) == |d|
    decreases |d|
  {
    if |d| > 0 {
      assert (d + rest)[0] == d[0];
      assert (d + rest)[1..] == d[1..] + rest;
      DigitRunStops(d[1..], rest, radix);
    } else {
      assert d + rest == rest;
    }
  }

  /** Reading stops at the first character that is not a digit: a numeral
      followed by anything else reads as the numeral (a lone `0` followed
      by `x` or `X` would instead start a hexadecimal number). */
  lemma ParseIntStopsAtNonDigit(n: nat, rest: string)
    requires rest == "" || !IsDigit(rest[0], 10)
    requires n == 0 ==> rest == "" || (rest[0] != 'x' && rest[0] != 'X')
    ensures ParseInt(DecimalString(n) + rest) == Some(n)
  {
    var d := DecimalString(n);
    var s := d + rest;
    assert s[0] == d[0];
    assert !IsWhiteSpace(s[0]);
    assert TrimStart(s) == s;
    assert s[0] != '-' && s[0] != '+';
    assert |s| >= 2 && s[0] == '0' ==> s[1] != 'x' && s[1] != 'X' by {
      if |s| >= 2 && s[0] == '0' {
        assert n == 0 && d == "0" && s[1] == rest[0];
      }
    }
    assert forall j :: 0 <= j < |d| ==> IsDigit(d[j], 10);
    DigitRunStops(d, rest, 10);
    assert s[..|d|] == d;
    ValueOfDecimal(n);
  }

  /** After a `0x` or `0X` prefix the digits are read in radix 16, as far
      as the hexadecimal digits go. */
  lemma ParseIntHex(s: string)
    requires DigitRun(s, 16) > 0
    ensures ParseInt("0x" + s) == Some(ValueOf(s[..DigitRun(s, 16)], 16))
    ensures ParseInt("0X" + s) == Some(ValueOf(s[..DigitRun(s, 16)], 16))
  {
    assert TrimStart("0x" + s) == "0x" + s;
    assert TrimStart("0X" + s) == "0X" + s;
    assert ("0x" + s)[2..] == s;
    assert ("0X" + s)[2..] == s;
  }

  /** For example `0x1A` reads as 26 and `0x` followed by no hex digit is
      `NaN`, not 0. */
  lemma ParseIntHexExamples()
    ensures ParseInt("0x1A") == Some(26)
    ensures ParseInt("0xg") == None
  {
    assert "0x1A" == "0x" + "1A";
    assert DigitRun("1A", 16) == 2;
    assert "1A"[..2] == "1A";
    assert "1A"[..1] == "1";
    ParseIntHex("1A");
    var t := "0xg";
    assert TrimStart(t) == t;
    assert t[2..] == "g";
  }
}
