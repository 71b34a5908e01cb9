/**
 * The numbers the toolkit stores and computes with. A table cell is a float;
 * the only non-finite float it ever holds is the MISSING sentinel, which is
 * +infinity (dataset.py line 13), so a cell is either `Missing` or a finite
 * real. Also here: Python's `float(str)`, `int(x)` (truncation), `round(x)`
 * (half to even) and the index and slice rules of Python sequences.
 */
module PyNumbers {
  import opened Wrappers
  import opened PyText

  /** A stored float: +infinity (the MISSING sentinel) or a finite value. */
  datatype Cell = Missing | Num(value: real)

  /** IEEE addition where the only infinity is +infinity. */
  function Add(a: Cell, b: Cell): Cell
  {
    if a.Missing? || b.Missing? then Missing else Num(a.value + b.value)
  }

  /** `+=` on these floats: 0 changes nothing, MISSING absorbs everything, and the order of the additions does not matter. */
  lemma AddLaws(a: Cell, b: Cell, c: Cell)
    ensures Add(Num(0.0), a) == a
    ensures Add(Missing, a) == Missing && Add(a, Missing) == Missing
    ensures Add(a, b) == Add(b, a)
    ensures Add(Add(a, b), c) == Add(a, Add(b, c))
  {
  }

  /** `(t - p) ** 2` for a stored `t` and a finite `p`: never negative. */
  function SquaredError(t: Cell, p: real): (r: Cell)
    ensures r.Missing? <==> t.Missing?
    ensures r.Num? ==> r.value >= 0.0 && r.value == (t.value - p) * (t.value - p)
  {
    match t
    case Missing => Missing
    case Num(x) => Num((x - p) * (x - p))
  }

  function DigitValue(c: char): nat
    requires '0' <= c <= '9'
  {
    c as int - '0' as int
  }

  predicate AllDigits(s: string) {
    forall k :: 0 <= k < |s| ==> '0' <= s[k] <= '9'
  }

  /** The value of a string of decimal digits. */
  function DigitsValue(s: string): nat
    requires AllDigits(s)
  {
    if s == [] then 0 else 10 * DigitsValue(s[..|s| - 1]) + DigitValue(s[|s| - 1])
  }

  function Pow10(n: nat): (r: nat)
    ensures r >= 1
  {
    if n == 0 then 1 else 10 * Pow10(n - 1)
  }

  /** `x * 10 ** e` for any integer exponent, one factor of ten at a time. */
  function Scale10(x: real, e: int): real
    decreases if e >= 0 then e else -e
  {
    if e == 0 then x else if e > 0 then 10.0 * Scale10(x, e - 1) else Scale10(x, e + 1) / 10.0
  }

  /** Scaling by a non-negative exponent multiplies by that power of ten. */
  lemma {:induction false} Scale10Up(x: real, e: nat)
    ensures Scale10(x, e) == x * Pow10(e) as real
  {
    if e > 0 {
      Scale10Up(x, e - 1);
      TenTimes(x, Pow10(e - 1) as real);
    }
  }

  /** Scaling by a negative exponent divides by the opposite power of ten. */
  lemma {:induction false} Scale10Down(x: real, d: nat)
    ensures Scale10(x, -(d as int)) == x / Pow10(d) as real
  {
    if d > 0 {
      Scale10Down(x, d - 1);
      TenthOf(x, Pow10(d - 1) as real);
    }
  }

  lemma TenTimes(x: real, p: real)
    ensures 10.0 * (x * p) == x * (10.0 * p)
  {
  }

  lemma TenthOf(x: real, p: real)
    requires p > 0.0
    ensures x / p / 10.0 == x / (10.0 * p)
  {
  }

  /** `digits [ "." [digits] ] | "." digits`, at least one digit in all. */
  function ParseMantissa(m: string): Option<real>
  {
    if '.' in m then
      var i := IndexOf(m, '.');
      var whole, frac := m[..i], m[i + 1..];
      if AllDigits(whole) && AllDigits(frac) && |whole| + |frac| > 0 then
        Some(DigitsValue(whole) as real + Scale10(DigitsValue(frac) as real, -|frac|))
      else None
    else if AllDigits(m) && |m| > 0 then Some(DigitsValue(m) as real)
    else None
  }

  /** `[+|-] digits` after an `e` or `E`. */
  function ParseExponent(e: string): Option<int>
  {
    var neg := |e| > 0 && e[0] == '-';
    var digits := if |e| > 0 && (e[0] == '+' || e[0] == '-') then e[1..] else e;
    if AllDigits(digits) && |digits| > 0 then
      Some(if neg then 0 - DigitsValue(digits) as int else DigitsValue(digits))
    else None
  }

  /** An unsigned decimal with an optional exponent. */
  function ParseUnsigned(t: string): Option<real>
  {
    var low := Lower(t);
    if 'e' in low then
      var k := IndexOf(low, 'e');
      match (ParseMantissa(t[..k]), ParseExponent(t[k + 1..]))
      case (Some(x), Some(e)) => Some(Scale10(x, e))
      case _ => None
    else ParseMantissa(t)
  }

  /**
   * Python's `float(s)` on text that is already stripped. "inf" and "infinity"
   * (any case, optional `+`) give +infinity, the MISSING value; text that is not
   * a decimal number gives None, where Python raises ValueError.
   */
  function ParseFloat(s: string): Option<Cell>
  {
    if |s| > 0 && s[0] == '-' then Negated(ParseFloatBody(s[1..]))
    else if |s| > 0 && s[0] == '+' then ParseFloatBody(s[1..])
    else ParseFloatBody(s)
  }

  /** `float` of text after its sign: infinity spelled out, or an unsigned decimal. */
  function ParseFloatBody(body: string): Option<Cell>
  {
    var low := Lower(body);
    if low == "inf" || low == "infinity" then Some(Missing)
    else match ParseUnsigned(body)
      case None => None
      case Some(x) => Some(Num(x))
  }

  /** A minus sign: a finite value is negated, and -infinity has no cell. */
  function Negated(c: Option<Cell>): Option<Cell>
  {
    match c
    case Some(Num(x)) => Some(Num(-x))
    case _ => None
  }

  /** `str(n)` for a natural number. */
  function NatToString(n: nat): (s: string)
    ensures |s| >= 1 && AllDigits(s)
  {
    if n < 10 then ['0' + n as char] else NatToString(n / 10) + ['0' + (n % 10) as char]
  }

  lemma {:induction false} DigitsValueOfNatToString(n: nat)
    ensures DigitsValue(NatToString(n)) == n
  {
    if n >= 10 {
      DigitsValueOfNatToString(n / 10);
      var s := NatToString(n);
      assert s[..|s| - 1] == NatToString(n / 10);
    }
  }

  /** Reading back a natural number written in decimal gives that number. */
  lemma ParseFloatOfNatToString(n: nat)
    ensures ParseFloat(NatToString(n)) == Some(Num(n as real))
  {
    var s := NatToString(n);
    DigitsValueOfNatToString(n);
    assert Lower(s)[0] == s[0];
    assert '.' !in s;
    assert 'e' !in Lower(s) by {
      forall k | 0 <= k < |s| ensures Lower(s)[k] != 'e' { }
    }
  }

  /** Text made of digits and at most the decimal point. */
  predicate DecimalChars(m: string) {
    forall k :: 0 <= k < |m| ==> ('0' <= m[k] <= '9' || m[k] == '.')
  }

  /** Lowering leaves digits and the decimal point alone, so such text holds no `e`. */
  lemma LowerDecimal(m: string)
    requires DecimalChars(m)
    ensures Lower(m) == m && 'e' !in m
  {
    assert forall k :: 0 <= k < |m| ==> Lower(m)[k] == m[k];
  }

  /** The value of `whole.frac`: the digits of `frac` count tenths, hundredths and so on. */
  function DecimalValue(whole: string, frac: string): real
    requires AllDigits(whole) && AllDigits(frac)
  {
    DigitsValue(whole) as real + Scale10(DigitsValue(frac) as real, -|frac|)
  }

  /** A mantissa `whole.frac` reads as its decimal value. */
  lemma MantissaValue(whole: string, frac: string)
    requires AllDigits(whole) && AllDigits(frac) && |whole| + |frac| > 0
    ensures ParseMantissa(whole + "." + frac) == Some(DecimalValue(whole, frac))
  {
    FirstDot(whole, frac);
    MantissaOfParts(whole, frac, whole + "." + frac);
  }

  /** In `whole.frac` with a digits-only `whole`, the first point follows `whole`. */
  lemma FirstDot(whole: string, frac: string)
    requires AllDigits(whole)
    ensures var m := whole + "." + frac;
      '.' in m && IndexOf(m, '.') == |whole| && m[..|whole|] == whole && m[|whole| + 1..] == frac
  {
    var m := whole + "." + frac;
    assert m[|whole|] == '.';
    assert '.' !in m[..|whole|] by { assert m[..|whole|] == whole; }
  }

  /** A mantissa whose first point splits it into `whole` and `frac` reads as their decimal value. */
  lemma MantissaOfParts(whole: string, frac: string, m: string)
    requires AllDigits(whole) && AllDigits(frac) && |whole| + |frac| > 0
    requires '.' in m && IndexOf(m, '.') == |whole| && m[..|whole|] == whole && m[|whole| + 1..] == frac
    ensures ParseMantissa(m) == Some(DecimalValue(whole, frac))
  {
    MantissaAtDot(m, |whole|);
  }

  /** A mantissa with a point reads as its digits before the first point plus the scaled digits after it. */
  lemma MantissaAtDot(m: string, i: nat)
    requires '.' in m && i == IndexOf(m, '.')
    requires AllDigits(m[..i]) && AllDigits(m[i + 1..]) && |m[..i]| + |m[i + 1..]| > 0
    ensures ParseMantissa(m) == Some(DigitsValue(m[..i]) as real + Scale10(DigitsValue(m[i + 1..]) as real, -|m[i + 1..]|))
  {
  }

  /** The value `x` after a sign: negated after `-`, unchanged after `+` or nothing. */
  function Signed(sign: string, x: real): real {
    if sign == "-" then -x else x
  }

  /** A sign in front of a finite numeral negates it after `-` and is dropped after `+`. */
  lemma ParseFloatSigned(sign: string, body: string, x: real)
    requires sign == "" || sign == "+" || sign == "-"
    requires |body| > 0 && body[0] != '+' && body[0] != '-'
    requires Lower(body) != "inf" && Lower(body) != "infinity"
    requires ParseUnsigned(body) == Some(x)
    ensures ParseFloat(sign + body) == Some(Num(Signed(sign, x)))
  {
    var s := sign + body;
    assert ParseFloatBody(body) == Some(Num(x));
    if sign == "" {
      assert s == body;
    } else {
      assert s[0] == sign[0] && s[1..] == body;
      if sign == "-" {
        NegatedNum(ParseFloatBody(body), x);
      }
    }
  }

  /** Negating a finite value. */
  lemma NegatedNum(c: Option<Cell>, x: real)
    requires c == Some(Num(x))
    ensures Negated(c) == Some(Num(-x))
  {
  }

  /** A numeral `whole.frac` starts without a sign, is no spelling of infinity and holds no `e`. */
  lemma DecimalShape(whole: string, frac: string)
    requires AllDigits(whole) && AllDigits(frac)
    ensures var body := whole + "." + frac;
      && body[0] != '+' && body[0] != '-'
      && Lower(body) != "inf" && Lower(body) != "infinity" && 'e' !in Lower(body)
  {
    var body := whole + "." + frac;
    assert DecimalChars(body);
    LowerDecimal(body);
    assert body[|whole|] == '.';
  }

  /** Without an `e` the numeral is all mantissa. */
  lemma UnsignedWithoutExponent(t: string)
    requires 'e' !in Lower(t)
    ensures ParseUnsigned(t) == ParseMantissa(t)
  {
  }

  /** With an `e`, the mantissa before the first one is scaled by the exponent after it. */
  lemma UnsignedWithExponent(t: string, k: nat, x: real, n: int)
    requires 'e' in Lower(t) && k == IndexOf(Lower(t), 'e')
    requires ParseMantissa(t[..k]) == Some(x) && ParseExponent(t[k + 1..]) == Some(n)
    ensures ParseUnsigned(t) == Some(Scale10(x, n))
  {
  }

  /**
   * An optionally signed decimal `[+|-] digits "." digits` reads as its value,
   * negated after a minus sign.
   */
  lemma ParseFloatDecimal(sign: string, whole: string, frac: string)
    requires sign == "" || sign == "+" || sign == "-"
    requires AllDigits(whole) && AllDigits(frac) && |whole| + |frac| > 0
    ensures ParseFloat(sign + whole + "." + frac) == Some(Num(Signed(sign, DecimalValue(whole, frac))))
  {
    var body := whole + "." + frac;
    DecimalShape(whole, frac);
    MantissaValue(whole, frac);
    ParseFloatOfMantissa(sign, body, DecimalValue(whole, frac));
    Regroup3(sign, whole, ".", frac);
  }

  /** A signed numeral without an exponent reads as its mantissa. */
  lemma ParseFloatOfMantissa(sign: string, body: string, x: real)
    requires sign == "" || sign == "+" || sign == "-"
    requires |body| > 0 && body[0] != '+' && body[0] != '-'
    requires Lower(body) != "inf" && Lower(body) != "infinity" && 'e' !in Lower(body)
    requires ParseMantissa(body) == Some(x)
    ensures ParseFloat(sign + body) == Some(Num(Signed(sign, x)))
  {
    UnsignedWithoutExponent(body);
    ParseFloatSigned(sign, body, x);
  }

  /** Concatenation regrouped around a sign. */
  lemma Regroup3<T>(a: seq<T>, b: seq<T>, c: seq<T>, d: seq<T>)
    ensures a + b + c + d == a + (b + c + d)
  {
  }

  /** The exponent `[+|-] digits`: the digits' value, negated after a minus sign. */
  function ExponentOf(expSign: string, exp: string): int
    requires AllDigits(exp)
  {
    if expSign == "-" then 0 - DigitsValue(exp) as int else DigitsValue(exp)
  }

  /** `[+|-] digits` reads as its exponent. */
  lemma ExponentValue(expSign: string, exp: string)
    requires expSign == "" || expSign == "+" || expSign == "-"
    requires AllDigits(exp) && |exp| > 0
    ensures ParseExponent(expSign + exp) == Some(ExponentOf(expSign, exp))
  {
    var t := expSign + exp;
    if expSign == "" {
      assert t == exp;
    } else {
      assert t[1..] == exp;
    }
  }

  /** In `m e tail` with `m` free of letters, the first `e` of the lowered text follows `m`. */
  lemma FirstE(m: string, e: char, tail: string)
    requires DecimalChars(m) && (e == 'e' || e == 'E')
    ensures var t := m + [e] + tail;
      'e' in Lower(t) && IndexOf(Lower(t), 'e') == |m| && t[..|m|] == m && t[|m| + 1..] == tail
  {
    var t := m + [e] + tail;
    LowerDecimal(m);
    var low := Lower(t);
    assert low[|m|] == 'e';
    assert low[..|m|] == m by {
      assert forall k :: 0 <= k < |m| ==> low[k] == LowerChar(m[k]) == m[k];
    }
  }

  /**
   * A decimal mantissa followed by an exponent, `[+|-] m (e|E) [+|-] digits`,
   * reads as the mantissa's value times ten to the exponent, negated after a
   * minus sign.
   */
  lemma ParseFloatExponent(sign: string, m: string, e: char, expSign: string, exp: string)
    requires sign == "" || sign == "+" || sign == "-"
    requires DecimalChars(m) && ParseMantissa(m).Some?
    requires e == 'e' || e == 'E'
    requires expSign == "" || expSign == "+" || expSign == "-"
    requires AllDigits(exp) && |exp| > 0
    ensures ParseFloat(sign + m + [e] + expSign + exp) ==
              Some(Num(Signed(sign, Scale10(ParseMantissa(m).value, ExponentOf(expSign, exp)))))
  {
    var tail := expSign + exp;
    var body := m + [e] + tail;
    FirstE(m, e, tail);
    ExponentValue(expSign, exp);
    ExponentShape(m, e, tail);
    ParseFloatOfScaled(sign, body, |m|, ParseMantissa(m).value, ExponentOf(expSign, exp));
    Regroup4(sign, m, [e], expSign, exp);
  }

  /** A signed numeral with an exponent reads as its mantissa scaled by ten to the exponent. */
  lemma ParseFloatOfScaled(sign: string, body: string, k: nat, x: real, n: int)
    requires sign == "" || sign == "+" || sign == "-"
    requires |body| > 0 && body[0] != '+' && body[0] != '-'
    requires Lower(body) != "inf" && Lower(body) != "infinity"
    requires 'e' in Lower(body) && k == IndexOf(Lower(body), 'e')
    requires ParseMantissa(body[..k]) == Some(x) && ParseExponent(body[k + 1..]) == Some(n)
    ensures ParseFloat(sign + body) == Some(Num(Signed(sign, Scale10(x, n))))
  {
    UnsignedWithExponent(body, k, x, n);
    ParseFloatSigned(sign, body, Scale10(x, n));
  }

  /** Concatenation regrouped around a sign. */
  lemma Regroup4<T>(a: seq<T>, b: seq<T>, c: seq<T>, d: seq<T>, f: seq<T>)
    ensures a + b + c + d + f == a + (b + c + (d + f))
  {
  }

  /** A numeral with a mantissa in front starts without a sign and is no spelling of infinity. */
  lemma ExponentShape(m: string, e: char, tail: string)
    requires DecimalChars(m) && ParseMantissa(m).Some?
    ensures var body := m + [e] + tail;
      body[0] != '+' && body[0] != '-' && Lower(body) != "inf" && Lower(body) != "infinity"
  {
    var body := m + [e] + tail;
    assert |m| > 0;
    assert body[0] == m[0];
    assert Lower(body)[0] == LowerChar(m[0]) == m[0];
  }

  /** "inf" and "infinity" in any case read as MISSING, also after `+`; after `-` they are rejected. */
  lemma ParseFloatInfinity(word: string)
    requires Lower(word) == "inf" || Lower(word) == "infinity"
    ensures ParseFloat(word) == Some(Missing) && ParseFloat("+" + word) == Some(Missing)
    ensures ParseFloat("-" + word) == None
  {
    assert Lower(word)[0] == 'i';
    assert word[0] != '+' && word[0] != '-';
    assert ("+" + word)[1..] == word && ("-" + word)[1..] == word;
  }

  /** The decimal "0.1" reads as the real one tenth. */
  lemma ParseFloatOneTenth()
    ensures ParseFloat("0.1") == Some(Num(0.1))
  {
    assert Lower("0.1") == "0.1";
    assert IndexOf("0.1", '.') == 1;
    assert DigitsValue("1") == 1;
    assert Scale10(1.0, -1) == 0.1;
  }

  /** Python's `int(x)` on a finite float: truncation toward zero. */
  function Trunc(x: real): (r: int)
    ensures x >= 0.0 ==> r >= 0 && r as real <= x < r as real + 1.0
    ensures x < 0.0 ==> r <= 0 && r as real - 1.0 < x <= r as real
  {
    if x >= 0.0 then x.Floor else -((-x).Floor)
  }

  /** Python's `round(x)` on a float: nearest integer, ties to the even one. */
  function RoundHalfEven(x: real): (r: int)
    ensures x - 0.5 <= r as real <= x + 0.5
    ensures (r as real == x - 0.5 || r as real == x + 0.5) ==> r % 2 == 0
  {
    var f := x.Floor;
    var d := x - f as real;
    if d < 0.5 then f else if d > 0.5 then f + 1 else if f % 2 == 0 then f else f + 1
  }

  /** Any integer strictly closer than one half to `x` is what `round(x)` gives. */
  lemma RoundHalfEvenNearest(x: real, n: int)
    requires x - 0.5 < n as real < x + 0.5
    ensures RoundHalfEven(x) == n
  {
  }

  /** Python's `seq[i]` on a sequence of length `n`: the position read, or None for IndexError. */
  function PyIndex(i: int, n: nat): Option<nat>
  {
    if 0 <= i < n then Some(i) else if -(n as int) <= i < 0 then Some(i + n) else None
  }

  /** How many elements `seq[:k]` keeps of a sequence of length `n`. */
  function SliceEnd(k: int, n: nat): nat
  {
    if k < 0 then (if n + k > 0 then n + k else 0) else if k > n then n else k
  }

  /** Each position `p` has exactly two Python indexes, `p` and `p - n`; every other index is an IndexError. */
  lemma PyIndexNames(i: int, n: nat, p: nat)
    requires p < n
    ensures PyIndex(i, n) == Some(p) <==> i == p || i == p - n
    ensures PyIndex(i, n).None? <==> i < -(n as int) || i >= n
  {
  }

  /**
   * `seq[:k]` keeps at most the whole sequence, keeps more for a larger `k` of
   * the same sign (`seq[:-1]` keeps more than `seq[:0]`), and for an index that
   * `seq[k]` accepts it stops just before that element.
   */
  lemma SliceEndLaws(j: int, k: int, n: nat)
    ensures SliceEnd(k, n) <= n
    ensures (0 <= j <= k || j <= k < 0) ==> SliceEnd(j, n) <= SliceEnd(k, n)
    ensures PyIndex(k, n).Some? ==> SliceEnd(k, n) == PyIndex(k, n).value
    ensures k >= n ==> SliceEnd(k, n) == n
  {
  }
}
