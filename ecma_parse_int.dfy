/**
 * The global function parseInt of ECMAScript (section 19.2.5 of ECMA-262), for
 * radix 10 only, together with ToString of an absent value and the plain
 * decimal rendering that String(n) produces for an integral Number n with
 * |n| < 10^21 (larger ones are written in exponent notation, not modelled).
 *
 * Numbers are unbounded integers here: an IEEE double loses precision above
 * 2^53, which this model does not reproduce.
 */
module EcmaParseInt {
  import opened Wrappers

  /** StrWhiteSpaceChar: WhiteSpace (TAB, VT, FF, ZWNBSP and every Zs space) or a LineTerminator. */
  predicate IsStrWhiteSpace(c: char) {
    || c == '\U{9}' || c == '\U{B}' || c == '\U{C}' || c == '\U{FEFF}'
    || c == '\U{20}' || c == '\U{A0}' || c == '\U{1680}' || ('\U{2000}' <= c <= '\U{200A}')
    || c == '\U{202F}' || c == '\U{205F}' || c == '\U{3000}'
    || c == '\U{A}' || c == '\U{D}' || c == '\U{2028}' || c == '\U{2029}'
  }

  /** A digit of radix 10. */
  predicate IsDecimalDigit(c: char) {
    '0' <= c <= '9'
  }

  function DigitValue(c: char): (v: nat)
    requires IsDecimalDigit(c)
    ensures v < 10
  {
    (c as int) - ('0' as int)
  }

  function DigitChar(v: nat): (c: char)
    requires v < 10
    ensures IsDecimalDigit(c) && DigitValue(c) == v
  {
    ('0' as int + v) as char
  }

  predicate AllWhiteSpace(s: string) {
    forall i :: 0 <= i < |s| ==> IsStrWhiteSpace(s[i])
  }

  predicate AllDigits(s: string) {
    forall i :: 0 <= i < |s| ==> IsDecimalDigit(s[i])
  }

  /** TrimString(s, start): the string without its leading white space. */
  function TrimStart(s: string): (r: string)
    ensures |r| <= |s| && r == s[|s| - |r|..]
    ensures AllWhiteSpace(s[..|s| - |r|])
    ensures r == [] || !IsStrWhiteSpace(r[0])
  {
    if s != [] && IsStrWhiteSpace(s[0]) then
      var t := s[1..];
      var r := TrimStart(t);
      assert s[|s| - |r|..] == t[|t| - |r|..];
      assert s[..|s| - |r|] == [s[0]] + t[..|t| - |r|];
      r
    else
      s
  }

  /** The longest prefix of s made of radix-10 digits (radix 10 strips no "0x" prefix). */
  function DigitPrefix(s: string): (r: string)
    ensures |r| <= |s| && r == s[..|r|]
    ensures AllDigits(r)
    ensures |r| == |s| || !IsDecimalDigit(s[|r|])
  {
    if s != [] && IsDecimalDigit(s[0]) then [s[0]] + DigitPrefix(s[1..]) else []
  }

  /** The mathematical value of a decimal numeral, most significant digit first. */
  function DecimalValue(digits: string): nat
    requires AllDigits(digits)
  {
    if digits == [] then 0
    else 10 * DecimalValue(digits[..|digits| - 1]) + DigitValue(digits[|digits| - 1])
  }

  /**
   * The Numbers parseInt can return: NaN, or an integral value with its sign,
   * so that -0 (from "-0") stays apart from +0.
   */
  datatype JsNumber = NaN | Integral(negative: bool, magnitude: nat) {

    function Value(): int
      requires Integral?
    {
      if negative then -(magnitude as int) else magnitude
    }

    /** ToBoolean: NaN, +0 and -0 are falsy, every other Number is truthy. */
    predicate Truthy() {
      Integral? && magnitude != 0
    }
  }

  /** ToString of a parameter value; an absent parameter is undefined. */
  function JsToString(v: Option<string>): (r: string)
    ensures v.None? ==> r == "undefined"
    ensures v.Some? ==> r == v.value
  {
    match v
    case None => "undefined"
    case Some(s) => s
  }

  /** The string after a leading '+' or '-', if any. */
  function StripSign(t: string): string {
    if t != [] && (t[0] == '+' || t[0] == '-') then t[1..] else t
  }

  /**
   * parseInt(input, 10), for a string input. Its value on every input is
   * fixed by ParseIntOfPrefixSplit and PrefixSplitOfParseInt below.
   */
  function ParseInt10(input: string): (r: JsNumber)
    ensures r.Integral? ==> exists k :: 0 <= k < |input| && IsDecimalDigit(input[k])
  {
    var s := TrimStart(input);
    var negative := s != [] && s[0] == '-';
    var u := StripSign(s);
    var z := DigitPrefix(u);
    if z == [] then NaN
    else
      assert input[|input| - |u|] == z[0];
      Integral(negative, DecimalValue(z))
  }

  // ---------------------------------------------------------------------------
  // A declarative reading of parseInt: white space, an optional sign, a
  // non-empty run of decimal digits, and a rest that does not start with a digit.
  // ---------------------------------------------------------------------------

  ghost predicate IsSign(sign: string) {
    sign == "" || sign == "+" || sign == "-"
  }

  ghost predicate PrefixSplit(s: string, ws: string, sign: string, digits: string, rest: string) {
    && s == ws + sign + digits + rest
    && AllWhiteSpace(ws)
    && IsSign(sign)
    && digits != [] && AllDigits(digits)
    && (rest == [] || !IsDecimalDigit(rest[0]))
  }

  /** The signed value a split denotes. */
  function Signed(sign: string, magnitude: nat): int {
    if sign == "-" then -(magnitude as int) else magnitude
  }

  /** s starts (after white space and a sign) with a decimal numeral whose value is not zero. */
  ghost predicate HasNonZeroPrefix(s: string) {
    exists ws, sign, digits, rest :: PrefixSplit(s, ws, sign, digits, rest) && DecimalValue(digits) != 0
  }

  lemma {:induction false} TrimWhiteSpacePrefix(ws: string, t: string)
    requires AllWhiteSpace(ws)
    requires t == [] || !IsStrWhiteSpace(t[0])
    ensures TrimStart(ws + t) == t
  {
    if ws != [] {
      assert (ws + t)[1..] == ws[1..] + t;
      TrimWhiteSpacePrefix(ws[1..], t);
    }
  }

  lemma {:induction false} DigitPrefixOfNumeral(digits: string, rest: string)
    requires AllDigits(digits)
    requires rest == [] || !IsDecimalDigit(rest[0])
    ensures DigitPrefix(digits + rest) == digits
  {
    if digits != [] {
      assert (digits + rest)[1..] == digits[1..] + rest;
      DigitPrefixOfNumeral(digits[1..], rest);
    }
  }

  /** Every split is read by parseInt, with the split's sign and value. */
  lemma ParseIntOfPrefixSplit(s: string, ws: string, sign: string, digits: string, rest: string)
    requires PrefixSplit(s, ws, sign, digits, rest)
    ensures ParseInt10(s) == Integral(sign == "-", DecimalValue(digits))
  {
    var unsigned := digits + rest;
    var t := sign + unsigned;
    assert s == ws + t;
    assert t != [] && !IsStrWhiteSpace(t[0]) by {
      if sign == "" {
        assert t[0] == digits[0];
      } else {
        assert t[0] == sign[0];
      }
    }
    TrimWhiteSpacePrefix(ws, t);
    var stripped := if t[0] == '+' || t[0] == '-' then t[1..] else t;
    assert stripped == unsigned by {
      if sign == "" {
        assert t[0] == digits[0];
      } else {
        assert t[1..] == unsigned;
      }
    }
    assert (t[0] == '-') == (sign == "-") by {
      if sign == "" {
        assert t[0] == digits[0];
      }
    }
    DigitPrefixOfNumeral(digits, rest);
  }

  lemma DigitPrefixSplit(u: string)
    ensures u == DigitPrefix(u) + u[|DigitPrefix(u)|..]
    ensures u[|DigitPrefix(u)|..] == [] || !IsDecimalDigit(u[|DigitPrefix(u)|..][0])
  {
  }

  lemma SignSplit(t: string) returns (sign: string)
    ensures IsSign(sign) && t == sign + StripSign(t)
    ensures (sign == "-") == (t != [] && t[0] == '-')
  {
    if t != [] && (t[0] == '+' || t[0] == '-') {
      sign := [t[0]];
      assert t == [t[0]] + t[1..];
    } else {
      sign := [];
    }
  }

  /** The pieces parseInt takes its input apart into. */
  lemma ParseIntPieces(s: string) returns (ws: string, sign: string, digits: string, rest: string)
    ensures s == ws + sign + digits + rest
    ensures AllWhiteSpace(ws) && IsSign(sign) && AllDigits(digits)
    ensures rest == [] || !IsDecimalDigit(rest[0])
    ensures digits == DigitPrefix(StripSign(TrimStart(s)))
    ensures (sign == "-") == (TrimStart(s) != [] && TrimStart(s)[0] == '-')
  {
    var t := TrimStart(s);
    ws := s[..|s| - |t|];
    assert s == ws + t;
    sign := SignSplit(t);
    var u := StripSign(t);
    DigitPrefixSplit(u);
    digits := DigitPrefix(u);
    rest := u[|digits|..];
    Concat4(s, ws, t, sign, u, digits, rest);
  }

  /** Regrouping four pieces, kept apart so that ParseIntPieces reasons about less at once. */
  lemma Concat4(s: string, ws: string, t: string, sign: string, u: string, digits: string, rest: string)
    requires s == ws + t && t == sign + u && u == digits + rest
    ensures s == ws + sign + digits + rest
  {
  }

  /** Whatever number parseInt reads comes from a split of its input. */
  lemma PrefixSplitOfParseInt(s: string)
    requires ParseInt10(s).Integral?
    ensures exists ws, sign, digits, rest ::
      PrefixSplit(s, ws, sign, digits, rest) && ParseInt10(s) == Integral(sign == "-", DecimalValue(digits))
  {
    var ws, sign, digits, rest := ParseIntPieces(s);
    assert PrefixSplit(s, ws, sign, digits, rest);
  }

  /** parseInt gives NaN exactly when its input has no split. */
  lemma ParseIntNaNIff(s: string)
    ensures ParseInt10(s).NaN? <==> forall ws, sign, digits, rest :: !PrefixSplit(s, ws, sign, digits, rest)
  {
    if ParseInt10(s).Integral? {
      PrefixSplitOfParseInt(s);
    } else {
      forall ws, sign, digits, rest | PrefixSplit(s, ws, sign, digits, rest)
        ensures false
      {
        ParseIntOfPrefixSplit(s, ws, sign, digits, rest);
      }
    }
  }

  /** parseInt reads a truthy Number exactly when its input starts with a non-zero numeral. */
  lemma ParseIntTruthyIff(s: string)
    ensures ParseInt10(s).Truthy() <==> HasNonZeroPrefix(s)
  {
    if ParseInt10(s).Truthy() {
      PrefixSplitOfParseInt(s);
    }
    if HasNonZeroPrefix(s) {
      var ws, sign, digits, rest :| PrefixSplit(s, ws, sign, digits, rest) && DecimalValue(digits) != 0;
      ParseIntOfPrefixSplit(s, ws, sign, digits, rest);
    }
  }

  /** An absent parameter reads as "undefined", which starts with no numeral. */
  lemma UndefinedHasNoPrefix()
    ensures forall ws, sign, digits, rest :: !PrefixSplit(JsToString(None), ws, sign, digits, rest)
  {
    assert TrimStart("undefined") == "undefined";
    assert DigitPrefix("undefined") == [];
    ParseIntNaNIff("undefined");
  }

  /** A split whose numeral is worth zero leaves no non-zero numeral to read. */
  lemma ZeroNumeralIsFalsy(s: string, ws: string, sign: string, digits: string, rest: string)
    requires PrefixSplit(s, ws, sign, digits, rest) && DecimalValue(digits) == 0
    ensures !HasNonZeroPrefix(s)
  {
    ParseIntOfPrefixSplit(s, ws, sign, digits, rest);
    ParseIntTruthyIff(s);
  }

  /** A value that is a '0' followed by anything but a digit ("0", "0x10") has no non-zero numeral. */
  lemma LoneLeadingZero(s: string)
    requires s != [] && s[0] == '0' && (|s| == 1 || !IsDecimalDigit(s[1]))
    ensures !HasNonZeroPrefix(s)
  {
    assert s == [] + [] + [s[0]] + s[1..];
    assert DecimalValue([s[0]]) == 0 by {
      assert [s[0]][..0] == [];
    }
    ZeroNumeralIsFalsy(s, [], [], [s[0]], s[1..]);
  }

  /** A numeral is worth zero exactly when every digit of it is '0'. */
  lemma {:induction false} DecimalValueZeroIff(digits: string)
    requires AllDigits(digits)
    ensures DecimalValue(digits) == 0 <==> forall i :: 0 <= i < |digits| ==> digits[i] == '0'
  {
    if digits != [] {
      var init := digits[..|digits| - 1];
      DecimalValueZeroIff(init);
      assert forall i :: 0 <= i < |init| ==> init[i] == digits[i];
    }
  }

  // ---------------------------------------------------------------------------
  // The plain decimal numeral of an integer, with "-" in front of a negative
  // value: what String(n) writes for an integral Number with |n| < 10^21.
  // ---------------------------------------------------------------------------

  function Numeral(n: nat): (r: string)
    ensures r != [] && AllDigits(r)
    ensures r[0] != '0' || (n == 0 && |r| == 1)
  {
    if n < 10 then [DigitChar(n)] else Numeral(n / 10) + [DigitChar(n % 10)]
  }

  function NumberToString(n: int): (r: string)
    ensures r != [] && (r[0] == '-' <==> n < 0)
    ensures n < 0 ==> |r| >= 2 && AllDigits(r[1..]) && r[1] != '0'
    ensures n >= 0 ==> AllDigits(r) && (r[0] != '0' || r == "0")
  {
    if n < 0 then "-" + Numeral(-n) else Numeral(n)
  }

  lemma {:induction false} NumeralValue(n: nat)
    ensures DecimalValue(Numeral(n)) == n
  {
    if n >= 10 {
      NumeralValue(n / 10);
      var r := Numeral(n);
      assert r[..|r| - 1] == Numeral(n / 10);
    }
  }

  /** parseInt reads back the integer written as a plain decimal numeral. */
  lemma ParseIntOfNumberToString(n: int)
    ensures ParseInt10(NumberToString(n)).Integral?
    ensures ParseInt10(NumberToString(n)).Value() == n
  {
    var m: nat := if n < 0 then -n else n;
    var sign := if n < 0 then "-" else "";
    assert NumberToString(n) == "" + sign + Numeral(m) + "";
    assert PrefixSplit(NumberToString(n), "", sign, Numeral(m), "");
    ParseIntOfPrefixSplit(NumberToString(n), "", sign, Numeral(m), "");
    NumeralValue(m);
  }
}
