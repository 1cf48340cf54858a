/** The JavaScript number conversions the web code relies on: `Number(value)` on strings,
    booleans, null and undefined, `Number.isFinite`, and `Math.round`. Numbers are exact
    reals; a magnitude that a double cannot hold becomes an infinity. */
module JsNumber {
  import opened Common

  datatype Num = Finite(v: real) | NaN | Infinite(negative: bool)

  /** The primitive values that reach `Number(...)` in the source. */
  datatype Value = Undefined | Null | Bool(b: bool) | Number(n: Num) | Str(s: string)

  /** Half-way between the largest double and 2^1024: from here on, rounding to the nearest
      double gives an infinity. */
  const OverflowBound: int := 179769313486231580793728971405303415079934132710037826936173778980444968292764750946649017977587207096330286416692887910946555547851940402630657488671505820681908902000708383676273854845817711531764475730270069855571366959622842914819860834936475292719074168444365510704342711559699508093042880177904174497792

  /** A magnitude with its sign, or an infinity when it is too large. */
  function Signed(m: real, negative: bool): (n: Num)
    requires m >= 0.0
    ensures n.Finite? <==> m < OverflowBound as real
  {
    if m >= OverflowBound as real then Infinite(negative) else Finite(if negative then -m else m)
  }

  // ---------------------------------------------------------------- digits

  function DigitOf(c: char): (d: int)
  {
    if '0' <= c <= '9' then c as int - '0' as int
    else if 'a' <= c <= 'z' then c as int - 'a' as int + 10
    else if 'A' <= c <= 'Z' then c as int - 'A' as int + 10
    else 36
  }

  predicate RadixDigits(s: string, radix: nat)
  {
    forall i :: 0 <= i < |s| ==> 0 <= DigitOf(s[i]) < radix
  }

  function RadixValue(s: string, radix: nat): (n: nat)
    requires RadixDigits(s, radix)
  {
    if s == [] then 0 else Shifted(RadixValue(s[..|s| - 1], radix), radix) + DigitOf(s[|s| - 1])
  }

  /** `v * radix` for the radixes of the `0b`, `0o` and `0x` forms, written out per radix so
      that it stays linear. */
  function Shifted(v: nat, radix: nat): (r: nat)
    ensures radix in {2, 8, 16} ==> r == v * radix
  {
    if radix == 16 then 16 * v else if radix == 8 then 8 * v else if radix == 2 then 2 * v else 0
  }

  /** `m * 10^e` for an integer exponent, one power of ten at a time. */
  function Scale(m: nat, e: int): (r: real)
    ensures r >= 0.0
    decreases if e >= 0 then e else -e
  {
    if e == 0 then m as real
    else if e > 0 then Scale(m, e - 1) * 10.0
    else Scale(m, e + 1) / 10.0
  }

  // ---------------------------------------------------------------- the StringNumericLiteral grammar

  function ExpStart(s: string): (k: nat)
    ensures k <= |s|
    ensures forall j :: 0 <= j < k ==> s[j] != 'e' && s[j] != 'E'
    ensures k < |s| ==> s[k] == 'e' || s[k] == 'E'
  {
    if s == [] || s[0] == 'e' || s[0] == 'E' then 0 else 1 + ExpStart(s[1..])
  }

  /** `[+-]digits`, the part after `e`. */
  function ExponentValue(x: string): Option<int>
  {
    if x != [] && (x[0] == '+' || x[0] == '-') then
      if x[1..] != [] && AllDigits(x[1..]) then
        var e: int := DigitsValue(x[1..]);
        Some(if x[0] == '-' then -e else e)
      else None
    else if x != [] && AllDigits(x) then Some(DigitsValue(x))
    else None
  }

  /** `digits`, `digits.`, `digits.digits` or `.digits`: the digits as one integer and the
      number of them after the point. */
  function Mantissa(m: string): Option<(nat, nat)>
  {
    if '.' in m then
      var d := FirstIndexOfChar(m, '.');
      var i := m[..d];
      var f := m[d + 1..];
      if AllDigits(i) && AllDigits(f) && (i != [] || f != []) then
        assert AllDigits(i + f);
        Some((DigitsValue(i + f), |f|))
      else None
    else if m != [] && AllDigits(m) then Some((DigitsValue(m), 0))
    else None
  }

  /** The magnitude of an unsigned decimal literal, if `u` is one. */
  function DecimalMagnitude(u: string): (r: Option<real>)
    ensures r.Some? ==> r.value >= 0.0
  {
    var k := ExpStart(u);
    var mant := Mantissa(u[..k]);
    var exp := if k < |u| then ExponentValue(u[k + 1..]) else Some(0);
    if mant.None? || exp.None? then None
    else Some(Scale(mant.value.0, exp.value - mant.value.1))
  }

  function Unsigned(u: string, negative: bool): Num
  {
    if u == "Infinity" then Infinite(negative)
    else
      var m := DecimalMagnitude(u);
      if m.None? then NaN else Signed(m.value, negative)
  }

  function RadixLiteral(d: string, radix: nat): Num
  {
    if d != [] && RadixDigits(d, radix) then Signed(RadixValue(d, radix) as real, false) else NaN
  }

  /** `Number(s)` for a string: white space around is ignored, the empty string is 0, and
      anything that is not a numeric literal is NaN. */
  function StringToNumber(s: string): Num
  {
    var t := Trim(s);
    if t == [] then Finite(0.0)
    else if |t| >= 2 && t[0] == '0' && (t[1] == 'x' || t[1] == 'X') then RadixLiteral(t[2..], 16)
    else if |t| >= 2 && t[0] == '0' && (t[1] == 'o' || t[1] == 'O') then RadixLiteral(t[2..], 8)
    else if |t| >= 2 && t[0] == '0' && (t[1] == 'b' || t[1] == 'B') then RadixLiteral(t[2..], 2)
    else if t[0] == '+' then Unsigned(t[1..], false)
    else if t[0] == '-' then Unsigned(t[1..], true)
    else Unsigned(t, false)
  }

  /** `Number(value)`. */
  function ToNumber(x: Value): Num
  {
    match x
    case Undefined => NaN
    case Null => Finite(0.0)
    case Bool(b) => Finite(if b then 1.0 else 0.0)
    case Number(n) => n
    case Str(s) => StringToNumber(s)
  }

  /** `Math.round`: the nearest integer, halves going up. */
  function Round(v: real): (r: int)
    ensures v - 0.5 < r as real <= v + 0.5
  {
    (v + 0.5).Floor
  }

  // ---------------------------------------------------------------- arithmetic

  /** `a + b` on numbers: NaN is contagious, and infinities of opposite sign cancel to NaN. */
  function Add(a: Num, b: Num): (r: Num)
    ensures a.Finite? && b.Finite? ==> r == Finite(a.v + b.v)
    ensures r.NaN? <==> a.NaN? || b.NaN? || (a.Infinite? && b.Infinite? && a.negative != b.negative)
  {
    match (a, b)
    case (NaN, _) => NaN
    case (_, NaN) => NaN
    case (Infinite(x), Infinite(y)) => if x == y then a else NaN
    case (Infinite(_), _) => a
    case (_, Infinite(_)) => b
    case (Finite(x), Finite(y)) => Finite(x + y)
  }

  /** Unary minus. */
  function Negate(a: Num): (r: Num)
    ensures r.NaN? <==> a.NaN?
  {
    match a
    case Finite(x) => Finite(-x)
    case NaN => NaN
    case Infinite(neg) => Infinite(!neg)
  }

  /** `a - b`. */
  function Sub(a: Num, b: Num): (r: Num)
    ensures a.Finite? && b.Finite? ==> r == Finite(a.v - b.v)
  {
    Add(a, Negate(b))
  }

  /** `a * b` on numbers: NaN is contagious, an infinity times zero is NaN, and otherwise an
      infinity takes the sign of the product. */
  function Mul(a: Num, b: Num): (r: Num)
    ensures a.Finite? && b.Finite? ==> r == Finite(a.v * b.v)
    ensures r.NaN? <==> a.NaN? || b.NaN? || (a.Infinite? && b == Finite(0.0)) || (b.Infinite? && a == Finite(0.0))
  {
    if a.NaN? || b.NaN? then NaN
    else if a.Finite? && b.Finite? then Finite(a.v * b.v)
    else if a.Infinite? && b.Infinite? then Infinite(a.negative != b.negative)
    else if a.Infinite? then (if b.v == 0.0 then NaN else Infinite(a.negative != (b.v < 0.0)))
    else if a.v == 0.0 then NaN else Infinite(b.negative != (a.v < 0.0))
  }

  /** JavaScript truthiness, for the `x || fallback` idiom: undefined, null, false, 0, NaN and
      the empty string are falsy. */
  predicate Truthy(x: Value)
  {
    match x
    case Undefined => false
    case Null => false
    case Bool(b) => b
    case Number(n) => !(n.NaN? || n == Finite(0.0))
    case Str(s) => s != []
  }

  // ---------------------------------------------------------------- parseInt

  /** The longest prefix of decimal digits. */
  function DigitPrefix(s: string): (r: string)
    ensures AllDigits(r) && r <= s
    ensures |r| < |s| ==> !IsDigit(s[|r|])
  {
    if s != [] && IsDigit(s[0]) then [s[0]] + DigitPrefix(s[1..]) else []
  }

  /** `parseInt(text, 10)`: leading white space, an optional sign, then the longest run of
      decimal digits; without a digit the result is NaN, here `None`. */
  function ParseIntText(s: string): (r: Option<int>)
  {
    var t := TrimStart(s);
    var signed := t != [] && (t[0] == '-' || t[0] == '+');
    var d := DigitPrefix(if signed then t[1..] else t);
    if d == [] then None
    else if signed && t[0] == '-' then Some(0 - DigitsValue(d) as int)
    else Some(DigitsValue(d))
  }

  /** Truncation toward zero. */
  function Trunc(v: real): (r: int)
    ensures v >= 0.0 ==> r as real <= v < r as real + 1.0
    ensures v < 0.0 ==> r as real - 1.0 < v <= r as real
  {
    if v >= 0.0 then v.Floor else -((-v).Floor)
  }

  /** `parseInt(x, 10)` on a request value: text is read as above, a finite number loses its
      fraction, and undefined, null, booleans, NaN and the infinities give NaN. */
  function ParseInt(x: Value): (r: Option<int>)
    ensures x.Str? ==> r == ParseIntText(x.s)
    ensures x.Number? && x.n.Finite? ==> r == Some(Trunc(x.n.v))
    ensures !x.Str? && !(x.Number? && x.n.Finite?) ==> r.None?
  {
    match x
    case Str(s) => ParseIntText(s)
    case Number(Finite(v)) => Some(Trunc(v))
    case _ => None
  }

  /** The digit prefix of a string of digits is the whole string. */
  lemma {:induction false} DigitPrefixOfDigits(s: string)
    requires AllDigits(s)
    ensures DigitPrefix(s) == s
    decreases |s|
  {
    if s != [] {
      DigitPrefixOfDigits(s[1..]);
    }
  }

  /** A run of digits after white space reads as its value, and the rest of the text does not
      matter once a non-digit follows. */
  lemma ParseIntOfDigits(spaces: string, d: string, rest: string)
    requires forall i :: 0 <= i < |spaces| ==> IsSpace(spaces[i])
    requires d != [] && AllDigits(d)
    requires rest == [] || !IsDigit(rest[0])
    ensures ParseIntText(spaces + d + rest) == Some(DigitsValue(d))
  {
    var s := spaces + d + rest;
    TrimStartOfSpaces(spaces, d + rest);
    assert s == spaces + (d + rest);
    DigitPrefixSplit(d, rest);
  }

  lemma {:induction false} TrimStartOfSpaces(spaces: string, t: string)
    requires forall i :: 0 <= i < |spaces| ==> IsSpace(spaces[i])
    requires t != [] && !IsSpace(t[0])
    ensures TrimStart(spaces + t) == t
    decreases |spaces|
  {
    if spaces != [] {
      assert (spaces + t)[1..] == spaces[1..] + t;
      TrimStartOfSpaces(spaces[1..], t);
    }
  }

  lemma {:induction false} DigitPrefixSplit(d: string, rest: string)
    requires AllDigits(d)
    requires rest == [] || !IsDigit(rest[0])
    ensures DigitPrefix(d + rest) == d
    decreases |d|
  {
    if d != [] {
      assert (d + rest)[1..] == d[1..] + rest;
      DigitPrefixSplit(d[1..], rest);
    }
  }

  /** The decimal text of a natural number reads back as that number. */
  lemma ParseIntOfNat(n: nat)
    ensures ParseIntText(NatToString(n)) == Some(n)
  {
    DigitsValueOfNatToString(n);
    ParseIntOfDigits([], NatToString(n), []);
    assert [] + NatToString(n) + [] == NatToString(n);
  }

  // ---------------------------------------------------------------- facts

  lemma TrimOfUnspaced(s: string)
    requires forall i :: 0 <= i < |s| ==> !IsSpace(s[i])
    ensures Trim(s) == s
  {
    assert TrimStart(s) == s;
  }

  /** A plain decimal integer reads as itself. */
  lemma DigitsToNumber(s: string)
    requires s != [] && AllDigits(s) && DigitsValue(s) < OverflowBound
    ensures StringToNumber(s) == Finite(DigitsValue(s) as real)
  {
    TrimOfUnspaced(s);
    assert '.' !in s;
    assert ExpStart(s) == |s|;
    assert s[..|s|] == s;
  }

  /** The decimal text of a small natural number reads back as that number. */
  lemma NatTextToNumber(n: nat)
    requires n < OverflowBound
    ensures StringToNumber(NatToString(n)) == Finite(n as real)
  {
    DigitsValueOfNatToString(n);
    DigitsToNumber(NatToString(n));
  }
}
