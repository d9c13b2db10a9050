/**
 What a numeral means, apart from any reader: a digit counts by its place, an exponent multiplies by a
 power. The readers of Numerals are proved against it: a text is read exactly when it spells a numeral.
 */
module Spelling {
  import opened Options
  import opened Numerals

  // ---------------------------------------------------------------------------------------------
  // Digits and places
  // ---------------------------------------------------------------------------------------------

  /** What a digit counts; everything else counts too much for any base. */
  function Rank(c: char): nat {
    match c
    case '0' => 0
    case '1' => 1
    case '2' => 2
    case '3' => 3
    case '4' => 4
    case '5' => 5
    case '6' => 6
    case '7' => 7
    case '8' => 8
    case '9' => 9
    case 'a' => 10
    case 'b' => 11
    case 'c' => 12
    case 'd' => 13
    case 'e' => 14
    case 'f' => 15
    case 'A' => 10
    case 'B' => 11
    case 'C' => 12
    case 'D' => 13
    case 'E' => 14
    case 'F' => 15
    case _ => 99
  }

  ghost predicate DigitsOf(base: nat, s: string) {
    forall i :: 0 <= i < |s| ==> Rank(s[i]) < base
  }

  function Raised(base: nat, n: nat): (p: nat)
    ensures base > 0 ==> p > 0
  {
    if n == 0 then 1 else base * Raised(base, n - 1)
  }

  /** The digits by their places, the first one highest. */
  function Weighed(base: nat, s: string): nat {
    if s == "" then 0 else Rank(s[0]) * Raised(base, |s| - 1) + Weighed(base, s[1..])
  }

  lemma Distribute(base: nat, r: nat, p: nat, w: nat)
    ensures r * (base * p) + base * w == base * (r * p + w)
  {
    assert r * (base * p) == base * (r * p);
  }

  lemma {:induction false} WeighedAppends(base: nat, s: string, c: char)
    ensures Weighed(base, s + [c]) == base * Weighed(base, s) + Rank(c)
  {
    if s == "" {
      assert s + [c] == [c] && [c][1..] == "";
      assert Raised(base, 0) == 1;
    } else {
      WeighedAppends(base, s[1..], c);
      var t := s + [c];
      assert t[1..] == s[1..] + [c] && t[0] == s[0] && |t| - 1 == |s|;
      var r, p, w := Rank(s[0]), Raised(base, |s| - 1), Weighed(base, s[1..]);
      assert Raised(base, |s|) == base * p;
      assert Weighed(base, s) == r * p + w;
      assert Weighed(base, t) == r * Raised(base, |s|) + Weighed(base, t[1..]);
      hide Weighed, Raised, Rank;
      Distribute(base, r, p, w);
    }
  }

  lemma DigitRank(c: char)
    ensures Rank(c) < 10 <==> IsDigit(c)
    ensures Rank(c) < 16 <==> IsHexDigit(c)
    ensures IsDigit(c) ==> Rank(c) == c as int - '0' as int
    ensures IsHexDigit(c) ==> HexDigit(c) == Rank(c)
  {
  }

  lemma {:induction false} DigitsWeigh(s: string)
    requires forall c :: c in s ==> IsDigit(c)
    ensures DigitsValue(s) == Weighed(10, s)
  {
    if s != "" {
      var init, last := s[..|s| - 1], s[|s| - 1];
      assert s == init + [last];
      DigitsWeigh(init);
      DigitRank(last);
      WeighedAppends(10, init, last);
    }
  }

  lemma {:induction false} HexWeighs(s: string)
    requires forall i :: 0 <= i < |s| ==> IsHexDigit(s[i])
    ensures HexValue(s) == Weighed(16, s)
  {
    if s != "" {
      var init, last := s[..|s| - 1], s[|s| - 1];
      assert s == init + [last];
      HexWeighs(init);
      DigitRank(last);
      WeighedAppends(16, init, last);
    }
  }

  /** Digits before and after a place. */
  lemma {:induction false} WeighedJoins(base: nat, s: string, t: string)
    ensures Weighed(base, s + t) == Weighed(base, s) * Raised(base, |t|) + Weighed(base, t)
    decreases |t|
  {
    if t == "" {
      assert s + t == s;
    } else {
      var init, last := t[..|t| - 1], t[|t| - 1];
      assert t == init + [last] && s + t == (s + init) + [last];
      WeighedJoins(base, s, init);
      WeighedAppends(base, s + init, last);
      WeighedAppends(base, init, last);
      var w, p, v := Weighed(base, s), Raised(base, |init|), Weighed(base, init);
      assert Raised(base, |t|) == base * p;
      hide Weighed, Raised, Rank;
      Distribute(base, w, p, v);
    }
  }

  lemma {:induction false} TensArePowers(n: nat)
    ensures Pow10(n) == Raised(10, n) as real
  {
    if n > 0 {
      TensArePowers(n - 1);
    }
  }

  lemma {:induction false} TwosArePowers(n: nat)
    ensures Pow2(n) == Raised(2, n) as real
  {
    if n > 0 {
      TwosArePowers(n - 1);
    }
  }

  lemma {:induction false} SixteensAreTwos(n: nat)
    ensures Raised(2, 4 * n) == Raised(16, n)
  {
    if n > 0 {
      SixteensAreTwos(n - 1);
      var m: nat := 4 * (n - 1);
      assert Raised(2, m + 1) == 2 * Raised(2, m) && Raised(2, m + 2) == 2 * Raised(2, m + 1);
      assert Raised(2, m + 3) == 2 * Raised(2, m + 2) && Raised(2, m + 4) == 2 * Raised(2, m + 3);
    }
  }

  // ---------------------------------------------------------------------------------------------
  // Numerals
  // ---------------------------------------------------------------------------------------------

  datatype Sign = NoSign | Plus | Minus
  {
    function Text(): string {
      match this
      case NoSign => ""
      case Plus => "+"
      case Minus => "-"
    }
  }

  /** A hexadecimal numeral begins with 0x or 0X. */
  datatype Form = Decimals | Hex(x: char)
  {
    function Text(): string {
      match this
      case Decimals => ""
      case Hex(x) => ['0', x]
    }

    function Base(): nat {
      if Decimals? then 10 else 16
    }

    /** The letter announces an exponent. */
    predicate Marks(c: char) {
      if Decimals? then c == 'e' || c == 'E' else c == 'p' || c == 'P'
    }
  }

  datatype Power = NoPower | Times(mark: char, sign: Sign, digits: string)
  {
    function Text(): string {
      match this
      case NoPower => ""
      case Times(mark, sign, digits) => [mark] + (sign.Text() + digits)
    }

    /** The exponent's absolute value. */
    function Size(): nat {
      if NoPower? then 0 else Weighed(10, digits)
    }

    function Applied(m: real, base: nat): real
      requires base > 0
    {
      var factor := Raised(base, Size()) as real;
      if Times? && sign.Minus? then m / factor else m * factor
    }
  }

  /** A sign, digits with an optional point among them, and an exponent. */
  datatype Numeral = Numeral(sign: Sign, form: Form, whole: string, point: bool, fraction: string, power: Power)
  {
    ghost predicate DigitsRight() {
      && DigitsOf(form.Base(), whole) && DigitsOf(form.Base(), fraction)
      && |whole| + |fraction| > 0 && (!point ==> |fraction| == 0)
    }

    /** A hexadecimal numeral needs an exponent; it is one of two and not of ten. */
    ghost predicate WellFormed() {
      && DigitsRight()
      && (form.Hex? ==> form.x in {'x', 'X'} && power.Times?)
      && (power.Times? ==>
            && form.Marks(power.mark)
            && |power.digits| > 0 && DigitsOf(10, power.digits))
    }

    function Digits(): string {
      whole + ((if point then "." else "") + fraction)
    }

    /** What follows the sign. */
    function Unsigned(): string {
      form.Text() + (Digits() + power.Text())
    }

    function Spelled(): string {
      sign.Text() + Unsigned()
    }

    /** The digits as one fraction. */
    function Mantissa(): real {
      var scale := Raised(form.Base(), |fraction|);
      (Weighed(form.Base(), whole) * scale + Weighed(form.Base(), fraction)) as real / scale as real
    }

    /** What the numeral counts without its sign. */
    function Amount(): real {
      power.Applied(Mantissa(), if form.Hex? then 2 else 10)
    }

    function Meaning(): real {
      if sign.Minus? then -Amount() else Amount()
    }
  }

  lemma FoundAfter(front: string, c: char, back: string, chars: set<char>)
    requires c in chars && forall i :: 0 <= i < |front| ==> front[i] !in chars
    ensures
      var s := front + ([c] + back);
      Find(s, chars) == |front| && s[..|front|] == front && s[|front| + 1..] == back
  {
    var s := front + ([c] + back);
    assert s[|front|] == c;
    assert forall i :: 0 <= i < |front| ==> s[i] == front[i];
    var i := Find(s, chars);
  }

  lemma DecimalDigits(s: string)
    requires DigitsOf(10, s)
    ensures forall c :: c in s ==> IsDigit(c)
    ensures DigitsValue(s) == Weighed(10, s)
  {
    forall c | c in s ensures IsDigit(c) {
      var i :| 0 <= i < |s| && s[i] == c;
      DigitRank(c);
    }
    DigitsWeigh(s);
  }

  lemma HexDigits(s: string)
    requires DigitsOf(16, s)
    ensures forall i :: 0 <= i < |s| ==> IsHexDigit(s[i])
    ensures HexValue(s) == Weighed(16, s)
  {
    forall i | 0 <= i < |s| ensures IsHexDigit(s[i]) {
      DigitRank(s[i]);
    }
    HexWeighs(s);
  }

  lemma DigitsJoin(base: nat, s: string, t: string)
    requires DigitsOf(base, s) && DigitsOf(base, t)
    ensures DigitsOf(base, s + t)
  {
  }

  lemma NoPoint(base: nat, s: string)
    requires DigitsOf(base, s) && base <= 16
    ensures forall i :: 0 <= i < |s| ==> s[i] != '.'
  {
    assert Rank('.') == 99;
  }

  /** The digits before the point and after it. */
  lemma PointSplits(whole: string, point: bool, fraction: string)
    requires (forall i :: 0 <= i < |whole| ==> whole[i] != '.') && (!point ==> fraction == "")
    ensures
      var m := whole + ((if point then "." else "") + fraction);
      && Find(m, {'.'}) == |whole| && m[..|whole|] == whole
      && (if |whole| < |m| then m[|whole| + 1..] else "") == fraction
  {
    var m := whole + ((if point then "." else "") + fraction);
    if point {
      FoundAfter(whole, '.', fraction, {'.'});
    } else {
      assert m == whole;
      NoneFound(whole, {'.'});
    }
  }

  lemma DecimalFraction(whole: string, fraction: string)
    requires DigitsOf(10, whole) && DigitsOf(10, fraction) && |whole| + |fraction| > 0
    ensures AllDigits(whole + fraction)
    ensures
      DigitsValue(whole + fraction) as real / Pow10(|fraction|) ==
      (Weighed(10, whole) * Raised(10, |fraction|) + Weighed(10, fraction)) as real / Raised(10, |fraction|) as real
  {
    DigitsJoin(10, whole, fraction);
    DecimalDigits(whole + fraction);
    hide DigitsOf, DigitsValue, Weighed, Pow10, Raised, IsDigit;
    WeighedJoins(10, whole, fraction);
    TensArePowers(|fraction|);
  }

  lemma HexFraction(whole: string, fraction: string)
    requires DigitsOf(16, whole) && DigitsOf(16, fraction) && |whole| + |fraction| > 0
    ensures AllHex(whole + fraction)
    ensures
      HexValue(whole + fraction) as real / Pow2(4 * |fraction|) ==
      (Weighed(16, whole) * Raised(16, |fraction|) + Weighed(16, fraction)) as real / Raised(16, |fraction|) as real
  {
    DigitsJoin(16, whole, fraction);
    HexDigits(whole + fraction);
    hide DigitsOf, HexValue, Weighed, Pow2, Raised, IsHexDigit;
    WeighedJoins(16, whole, fraction);
    TwosArePowers(4 * |fraction|);
    SixteensAreTwos(|fraction|);
  }

  /** Reading the digits of a decimal numeral. */
  lemma MantissaReads(n: Numeral)
    requires n.WellFormed() && n.form.Decimals?
    ensures Mantissa(n.Digits()) == Some(n.Mantissa())
  {
    hide DigitsOf, DigitsValue, Weighed, Pow10, Raised, IsDigit, AllDigits, Find, Rank;
    DecimalFraction(n.whole, n.fraction);
    NoPoint(10, n.whole);
    PointSplits(n.whole, n.point, n.fraction);
  }

  lemma HexMantissaReads(n: Numeral)
    requires n.WellFormed() && n.form.Hex?
    ensures HexMantissa(n.Digits()) == Some(n.Mantissa())
  {
    hide DigitsOf, HexValue, Weighed, Pow2, Raised, IsHexDigit, AllHex, Find, Rank;
    HexFraction(n.whole, n.fraction);
    NoPoint(16, n.whole);
    PointSplits(n.whole, n.point, n.fraction);
  }

  lemma SignRemoved(sign: Sign, body: string)
    requires body != "" && body[0] !in {'+', '-'}
    ensures
      var s := sign.Text() + body;
      s != "" && Magnitude(s) == body && (s[0] == '-' <==> sign.Minus?)
  {
    var s := sign.Text() + body;
    if sign.NoSign? {
      assert s == body;
    } else {
      assert s[1..] == body;
    }
  }

  lemma ExponentReads(sign: Sign, digits: string)
    requires |digits| > 0 && DigitsOf(10, digits)
    ensures
      var e := Weighed(10, digits);
      Exponent(sign.Text() + digits) == Some(if sign.Minus? then 0 - e else e)
  {
    DecimalDigits(digits);
    assert digits[0] in digits;
    SignRemoved(sign, digits);
    hide DigitsOf, DigitsValue, Weighed, Rank, IsDigit, Magnitude, Sign.Text;
  }

  lemma DigitsHaveNo(n: Numeral, chars: set<char>)
    requires n.WellFormed() && '.' !in chars && forall c :: c in chars ==> Rank(c) >= n.form.Base()
    ensures forall i :: 0 <= i < |n.Digits()| ==> n.Digits()[i] !in chars
  {
    var s := n.Digits();
    forall i | 0 <= i < |s| ensures s[i] !in chars {
      assert i < |n.whole| ==> s[i] == n.whole[i];
      var k := i - |n.whole| - if n.point then 1 else 0;
      assert k >= 0 ==> s[i] == n.fraction[k];
    }
  }

  lemma Unit(x: real)
    ensures x * 1.0 == x && x / 1.0 == x
  {
  }

  lemma DecimalPlain(digits: string, m: real)
    requires Mantissa(digits) == Some(m)
    requires forall i :: 0 <= i < |digits| ==> digits[i] !in {'e', 'E'}
    ensures Decimal(digits) == Some(m)
  {
    NoneFound(digits, {'e', 'E'});
    hide Mantissa, Find;
    assert digits[..|digits|] == digits && Pow10(0) == 1.0;
    Unit(m);
  }

  lemma DecimalMarked(digits: string, mark: char, tail: string, m: real, e: int)
    requires Mantissa(digits) == Some(m) && Exponent(tail) == Some(e) && mark in {'e', 'E'}
    requires forall i :: 0 <= i < |digits| ==> digits[i] !in {'e', 'E'}
    ensures Decimal(digits + ([mark] + tail)) == Some(TimesTen(m, e))
  {
    FoundAfter(digits, mark, tail, {'e', 'E'});
    hide Mantissa, Exponent, Find, TimesTen;
    assert |digits| < |digits + ([mark] + tail)|;
  }

  lemma HexMarked(digits: string, mark: char, tail: string, m: real, e: int)
    requires HexMantissa(digits) == Some(m) && Exponent(tail) == Some(e) && mark in {'p', 'P'}
    requires forall i :: 0 <= i < |digits| ==> digits[i] !in {'p', 'P'}
    ensures Hexadecimal(digits + ([mark] + tail)) == Some(TimesTwo(m, e))
  {
    FoundAfter(digits, mark, tail, {'p', 'P'});
    hide HexMantissa, Exponent, Find, TimesTwo;
    assert |digits| < |digits + ([mark] + tail)|;
  }

  /** A signed exponent as a factor. */
  lemma ScaledByTen(m: real, v: nat, minus: bool, e: int)
    requires e == if minus then -(v as int) else v as int
    ensures TimesTen(m, e) ==
      if minus then m / Raised(10, v) as real else m * Raised(10, v) as real
  {
    TensArePowers(v);
    Unit(m);
    assert Pow10(0) == 1.0;
  }

  lemma ScaledByTwo(m: real, v: nat, minus: bool, e: int)
    requires e == if minus then -(v as int) else v as int
    ensures TimesTwo(m, e) ==
      if minus then m / Raised(2, v) as real else m * Raised(2, v) as real
  {
    TwosArePowers(v);
    Unit(m);
    assert Pow2(0) == 1.0;
  }

  lemma DecimalTimes(digits: string, m: real, p: Power)
    requires Mantissa(digits) == Some(m) && (forall i :: 0 <= i < |digits| ==> digits[i] !in {'e', 'E'})
    requires p.Times? && p.mark in {'e', 'E'} && |p.digits| > 0 && DigitsOf(10, p.digits)
    ensures Decimal(digits + p.Text()) == Some(p.Applied(m, 10))
  {
    hide DigitsOf, Weighed, Decimal, Exponent, Mantissa, TimesTen, Raised, Sign.Text;
    var v := p.Size();
    ExponentReads(p.sign, p.digits);
    var e: int := if p.sign.Minus? then -(v as int) else v as int;
    ScaledByTen(m, v, p.sign.Minus?, e);
    assert TimesTen(m, e) ==
      if p.sign.Minus? then m / Raised(10, p.Size()) as real else m * Raised(10, p.Size()) as real;
    assert p.Applied(m, 10) == TimesTen(m, e);
    DecimalMarked(digits, p.mark, p.sign.Text() + p.digits, m, e);
    assert Decimal(digits + ([p.mark] + (p.sign.Text() + p.digits))) == Some(TimesTen(m, e));
    assert digits + ([p.mark] + (p.sign.Text() + p.digits)) == digits + p.Text();
  }

  lemma HexTimes(digits: string, m: real, p: Power)
    requires HexMantissa(digits) == Some(m) && (forall i :: 0 <= i < |digits| ==> digits[i] !in {'p', 'P'})
    requires p.Times? && p.mark in {'p', 'P'} && |p.digits| > 0 && DigitsOf(10, p.digits)
    ensures Hexadecimal(digits + p.Text()) == Some(p.Applied(m, 2))
  {
    hide DigitsOf, Weighed, Hexadecimal, Exponent, HexMantissa, TimesTwo, Raised, Sign.Text;
    var v := p.Size();
    ExponentReads(p.sign, p.digits);
    var e: int := if p.sign.Minus? then -(v as int) else v as int;
    ScaledByTwo(m, v, p.sign.Minus?, e);
    assert TimesTwo(m, e) == if p.sign.Minus? then m / Raised(2, p.Size()) as real else m * Raised(2, p.Size()) as real;
    assert p.Applied(m, 2) == TimesTwo(m, e);
    HexMarked(digits, p.mark, p.sign.Text() + p.digits, m, e);
    assert Hexadecimal(digits + ([p.mark] + (p.sign.Text() + p.digits))) == Some(TimesTwo(m, e));
    assert digits + ([p.mark] + (p.sign.Text() + p.digits)) == digits + p.Text();
  }

  lemma NoMarks(n: Numeral)
    requires n.WellFormed()
    ensures forall i :: 0 <= i < |n.Digits()| ==> !n.form.Marks(n.Digits()[i])
  {
    assert Rank('p') == 99 && Rank('P') == 99 && Rank('e') == 14 && Rank('E') == 14;
    var chars := if n.form.Hex? then {'p', 'P'} else {'e', 'E'};
    hide Numeral.Digits, DigitsOf, Rank;
    DigitsHaveNo(n, chars);
    assert forall c :: n.form.Marks(c) ==> c in chars;
  }

  lemma DecimalReads(n: Numeral)
    requires n.WellFormed() && n.form.Decimals?
    ensures Decimal(n.Digits() + n.power.Text()) == Some(n.Amount())
  {
    hide Rank, DigitsOf, Weighed, Decimal, Mantissa, Numeral.Mantissa, Numeral.Digits, Power.Text;
    MantissaReads(n);
    NoMarks(n);
    if n.power.NoPower? {
      assert Raised(10, 0) == 1;
      assert n.Digits() + n.power.Text() == n.Digits() by {
        NoPowerText(n.power);
      }
      hide Raised, Numeral.WellFormed;
      DecimalPlain(n.Digits(), n.Mantissa());
      Unit(n.Mantissa());
    } else {
      hide Power.Applied;
      DecimalTimes(n.Digits(), n.Mantissa(), n.power);
    }
  }

  lemma NoPowerText(p: Power)
    requires p.NoPower?
    ensures p.Text() == ""
  {
  }

  lemma HexadecimalReads(n: Numeral)
    requires n.WellFormed() && n.form.Hex?
    ensures Hexadecimal(n.Digits() + n.power.Text()) == Some(n.Amount())
  {
    hide Rank, DigitsOf, Weighed, Hexadecimal, HexMantissa, Numeral.Mantissa, Numeral.Digits, Power.Applied, Power.Text;
    HexMantissaReads(n);
    NoMarks(n);
    HexTimes(n.Digits(), n.Mantissa(), n.power);
  }

  ghost predicate Free(s: string, chars: set<char>) {
    forall i :: 0 <= i < |s| ==> s[i] !in chars
  }

  lemma FreeJoins(s: string, t: string, chars: set<char>)
    requires Free(s, chars) && Free(t, chars)
    ensures Free(s + t, chars)
  {
  }

  /** Characters no numeral is made of. */
  ghost predicate Strange(chars: set<char>) {
    forall c :: c in chars ==> Rank(c) == 99 && c !in {'.', '+', '-', 'x', 'X', 'p', 'P'}
  }

  lemma PowerHasNo(p: Power, form: Form, chars: set<char>)
    requires Strange(chars) && (p.Times? ==> form.Marks(p.mark) && DigitsOf(10, p.digits))
    ensures Free(p.Text(), chars)
  {
    assert Rank('e') == 14 && Rank('E') == 14;
    if p.Times? {
      assert Free(p.digits, chars) && Free(p.sign.Text(), chars) && Free([p.mark], chars);
      FreeJoins(p.sign.Text(), p.digits, chars);
      FreeJoins([p.mark], p.sign.Text() + p.digits, chars);
    }
  }

  lemma HasNoStrangers(n: Numeral, chars: set<char>)
    requires n.WellFormed() && Strange(chars)
    ensures Free(n.Spelled(), chars)
  {
    DigitsHaveNo(n, chars);
    PowerHasNo(n.power, n.form, chars);
    assert Rank('0') == 0;
    assert Free(n.Digits(), chars) && Free(n.sign.Text(), chars) && Free(n.form.Text(), chars);
    hide Rank, DigitsOf, Free, Numeral.Digits, Power.Text, Sign.Text, Form.Text, Numeral.WellFormed;
    FreeJoins(n.Digits(), n.power.Text(), chars);
    FreeJoins(n.form.Text(), n.Digits() + n.power.Text(), chars);
    FreeJoins(n.sign.Text(), n.Unsigned(), chars);
  }

  /** The first characters tell the sign and the base. */
  lemma Beginning(n: Numeral)
    requires n.WellFormed()
    ensures n.Unsigned() != "" && n.Unsigned()[0] !in {'+', '-'}
    ensures HasPrefix(n.Unsigned(), {'x', 'X'}) <==> n.form.Hex?
    ensures n.Unsigned()[|n.form.Text()|..] == n.Digits() + n.power.Text()
  {
    var digits, s := n.Digits(), n.Unsigned();
    assert Rank('+') == 99 && Rank('-') == 99 && Rank('x') == 99 && Rank('X') == 99;
    DigitsHaveNo(n, {'+', '-', 'x', 'X'});
    assert |digits| > 0;
    hide DigitsOf, Rank, Numeral.Digits;
    if n.form.Decimals? {
      assert s == digits + n.power.Text();
      assert s[0] == digits[0];
      if |digits| > 1 {
        assert s[1] == digits[1];
      } else if |s| > 1 {
        assert s[1] == n.power.mark;
      }
    } else {
      assert s[0] == '0' && s[1] == n.form.x;
    }
  }

  lemma SignSplits(n: Numeral)
    requires n.WellFormed()
    ensures Magnitude(n.Spelled()) == n.Unsigned()
    ensures WithSign(n.Spelled(), n.Amount()) == n.Meaning()
  {
    Beginning(n);
    hide Numeral.Unsigned, Numeral.Amount, Numeral.WellFormed, HasPrefix, Magnitude;
    SignRemoved(n.sign, n.Unsigned());
  }

  lemma AmountReads(n: Numeral)
    requires n.WellFormed()
    ensures
      var body := n.Unsigned();
      Some(n.Amount()) == if HasPrefix(body, {'x', 'X'}) then Hexadecimal(body[2..]) else Decimal(body)
  {
    Beginning(n);
    hide Numeral.Unsigned, Numeral.WellFormed, Numeral.Amount, Numeral.Digits, Decimal, Hexadecimal, HasPrefix;
    if n.form.Decimals? {
      assert n.Unsigned()[0..] == n.Unsigned();
      DecimalReads(n);
    } else {
      HexadecimalReads(n);
    }
  }

  /** A numeral is read as the number it means, unless no float64 can hold it. */
  lemma NumeralReads(n: Numeral)
    requires n.WellFormed()
    ensures ParseFloat(n.Spelled()) == if n.Amount() < Overflow() then Some(n.Meaning()) else None
  {
    hide Numeral.Unsigned, Numeral.WellFormed, Overflow, Numeral.Amount, Decimal, Hexadecimal, Magnitude, HasPrefix;
    hide WithoutUnderscores, UnderscoresOK, Numeral.Spelled, WithSign;
    var s := n.Spelled();
    assert Strange({'_'});
    HasNoStrangers(n, {'_'});
    NothingRemoved(s);
    SignSplits(n);
    AmountReads(n);
  }

  // ---------------------------------------------------------------------------------------------
  // Nothing but numerals is read
  // ---------------------------------------------------------------------------------------------

  lemma AreDigits(s: string)
    requires forall c :: c in s ==> IsDigit(c)
    ensures DigitsOf(10, s)
  {
    forall i | 0 <= i < |s| ensures Rank(s[i]) < 10 {
      assert s[i] in s;
      DigitRank(s[i]);
    }
  }

  lemma AreHexDigits(s: string)
    requires forall i :: 0 <= i < |s| ==> IsHexDigit(s[i])
    ensures DigitsOf(16, s)
  {
    forall i | 0 <= i < |s| ensures Rank(s[i]) < 16 {
      DigitRank(s[i]);
    }
  }

  lemma DigitsPart(base: nat, s: string, t: string)
    requires DigitsOf(base, s + t)
    ensures DigitsOf(base, s) && DigitsOf(base, t)
  {
    forall i | 0 <= i < |s| ensures Rank(s[i]) < base {
      assert (s + t)[i] == s[i];
    }
    forall i | 0 <= i < |t| ensures Rank(t[i]) < base {
      assert (s + t)[|s| + i] == t[i];
    }
  }

  /** A text up to its first point, and what follows it. */
  function Cut(m: string): (parts: (string, bool, string))
    ensures m == parts.0 + ((if parts.1 then "." else "") + parts.2) && (!parts.1 ==> parts.2 == "")
  {
    var point := Find(m, {'.'});
    if point < |m| then
      assert m == m[..point] + ("." + m[point + 1..]);
      (m[..point], true, m[point + 1..])
    else (m, false, "")
  }

  lemma ExponentIsSpelled(t: string) returns (sign: Sign, digits: string)
    requires Exponent(t).Some?
    ensures t == sign.Text() + digits && |digits| > 0 && DigitsOf(10, digits)
  {
    sign := if !Signed(t) then NoSign else if t[0] == '+' then Plus else Minus;
    digits := Magnitude(t);
    AreDigits(digits);
    hide DigitsOf;
  }

  lemma MantissaIsSpelled(m: string, form: Form) returns (n: Numeral)
    requires Mantissa(m).Some? && form.Decimals?
    ensures n.sign.NoSign? && n.form == form && n.DigitsRight() && n.Digits() == m
  {
    var (whole, point, fraction) := Cut(m);
    n := Numeral(NoSign, form, whole, point, fraction, NoPower);
    AreDigits(whole + fraction);
    DigitsPart(10, whole, fraction);
    hide DigitsOf;
  }

  lemma HexMantissaIsSpelled(m: string, form: Form) returns (n: Numeral)
    requires HexMantissa(m).Some? && form.Hex?
    ensures n.sign.NoSign? && n.form == form && n.DigitsRight() && n.Digits() == m
  {
    var (whole, point, fraction) := Cut(m);
    n := Numeral(NoSign, form, whole, point, fraction, NoPower);
    AreHexDigits(whole + fraction);
    DigitsPart(16, whole, fraction);
    hide DigitsOf;
  }

  lemma PlainIsSpelled(m: string) returns (n: Numeral)
    requires Mantissa(m).Some?
    ensures n.WellFormed() && n.sign.NoSign? && n.form.Decimals? && m == n.Digits() + n.power.Text()
  {
    n := MantissaIsSpelled(m, Decimals);
    n := n.(power := NoPower);
    hide Mantissa, DigitsOf;
    assert n.Digits() + "" == n.Digits();
  }

  /** Digits with an exponent after them. */
  lemma WithPower(plain: Numeral, mark: char, tail: string) returns (n: Numeral)
    requires plain.DigitsRight() && plain.sign.NoSign? && (plain.form.Hex? ==> plain.form.x in {'x', 'X'})
    requires plain.form.Marks(mark) && Exponent(tail).Some?
    ensures n.WellFormed() && n.sign.NoSign? && n.form == plain.form
    ensures n.Digits() == plain.Digits() && n.power.Text() == [mark] + tail
  {
    var sign, digits := ExponentIsSpelled(tail);
    n := plain.(power := Times(mark, sign, digits));
    hide DigitsOf, Exponent, Sign.Text;
  }

  lemma DecimalParts(body: string) returns (front: string, mark: char, tail: string)
    requires Decimal(body).Some? && Find(body, {'e', 'E'}) < |body|
    ensures body == front + ([mark] + tail) && Decimals.Marks(mark)
    ensures Mantissa(front).Some? && Exponent(tail).Some?
  {
    hide Mantissa, Exponent, TimesTen;
    var at := Find(body, {'e', 'E'});
    front, mark, tail := body[..at], body[at], body[at + 1..];
  }

  lemma MarkedIsSpelled(body: string) returns (n: Numeral)
    requires Decimal(body).Some? && Find(body, {'e', 'E'}) < |body|
    ensures n.WellFormed() && n.sign.NoSign? && n.form.Decimals? && body == n.Digits() + n.power.Text()
  {
    var front, mark, tail := DecimalParts(body);
    hide *;
    n := MantissaIsSpelled(front, Decimals);
    n := WithPower(n, mark, tail);
  }

  lemma DecimalIsSpelled(body: string) returns (n: Numeral)
    requires Decimal(body).Some?
    ensures n.WellFormed() && n.sign.NoSign? && n.form.Decimals? && body == n.Digits() + n.power.Text()
  {
    var at := Find(body, {'e', 'E'});
    assert Mantissa(body[..at]).Some?;
    hide Numeral.WellFormed, Numeral.Digits, Mantissa, Decimal, Find, Power.Text;
    if at < |body| {
      n := MarkedIsSpelled(body);
    } else {
      assert body[..at] == body;
      n := PlainIsSpelled(body);
    }
  }

  lemma HexadecimalParts(body: string, x: char) returns (front: string, mark: char, tail: string)
    requires Hexadecimal(body).Some?
    ensures body == front + ([mark] + tail) && Hex(x).Marks(mark)
    ensures HexMantissa(front).Some? && Exponent(tail).Some?
  {
    hide HexMantissa, Exponent, TimesTwo;
    var at := Find(body, {'p', 'P'});
    front, mark, tail := body[..at], body[at], body[at + 1..];
  }

  lemma HexadecimalIsSpelled(body: string, x: char) returns (n: Numeral)
    requires Hexadecimal(body).Some? && x in {'x', 'X'}
    ensures n.WellFormed() && n.sign.NoSign? && n.form == Hex(x) && body == n.Digits() + n.power.Text()
  {
    var front, mark, tail := HexadecimalParts(body, x);
    hide *;
    n := HexMantissaIsSpelled(front, Hex(x));
    n := WithPower(n, mark, tail);
  }

  lemma UnsignedIsSpelled(body: string) returns (n: Numeral)
    requires if HasPrefix(body, {'x', 'X'}) then Hexadecimal(body[2..]).Some? else Decimal(body).Some?
    ensures n.WellFormed() && n.sign.NoSign? && body == n.Unsigned()
  {
    hide Numeral.WellFormed, Numeral.Digits, Decimal, Hexadecimal, Power.Text;
    if HasPrefix(body, {'x', 'X'}) {
      n := HexadecimalIsSpelled(body[2..], body[1]);
      assert body == ['0', body[1]] + body[2..];
    } else {
      n := DecimalIsSpelled(body);
      assert "" + body == body;
    }
  }

  lemma SignedIsSpelled(s: string) returns (n: Numeral)
    requires
      var body := Magnitude(s);
      if HasPrefix(body, {'x', 'X'}) then Hexadecimal(body[2..]).Some? else Decimal(body).Some?
    ensures n.WellFormed() && n.Spelled() == s
  {
    hide Decimal, Hexadecimal, HasPrefix, Numeral.Unsigned, Numeral.WellFormed;
    var u := UnsignedIsSpelled(Magnitude(s));
    n := u.(sign := if !Signed(s) then NoSign else if s[0] == '+' then Plus else Minus);
    SignIsFree(u, n.sign);
    assert s == n.sign.Text() + Magnitude(s);
  }

  lemma SignIsFree(n: Numeral, sign: Sign)
    ensures n.(sign := sign).Unsigned() == n.Unsigned()
    ensures n.WellFormed() ==> n.(sign := sign).WellFormed()
  {
  }

  // ---------------------------------------------------------------------------------------------
  // Underscores
  // ---------------------------------------------------------------------------------------------

  /** An underscore at place k stands between two digits; what stands before `t` is one if `first` says so. */
  ghost predicate SeparatesAt(t: string, base: nat, first: bool, k: nat) {
    k < |t| && t[k] == '_' ==>
      && (if k == 0 then first else Rank(t[k - 1]) < base)
      && k + 1 < |t| && Rank(t[k + 1]) < base
  }

  ghost predicate Separate(t: string, base: nat, first: bool) {
    forall k: nat :: SeparatesAt(t, base, first, k)
  }

  /** After a base prefix, which counts as a digit, or after the sign. */
  ghost predicate UnderscoresSeparate(s: string) {
    var body := Magnitude(s);
    if HasPrefix(body, {'x', 'X'}) then Separate(body[2..], 16, true)
    else if HasPrefix(body, {'b', 'B', 'o', 'O'}) then Separate(body[2..], 10, true)
    else Separate(body, 10, false)
  }

  lemma SeparatesLater(t: string, base: nat, first: bool, k: nat)
    requires t != ""
    ensures SeparatesAt(t, base, first, k + 1) <==> SeparatesAt(t[1..], base, Rank(t[0]) < base, k)
  {
    hide Rank;
    assert forall i :: 0 <= i < |t| - 1 ==> t[1..][i] == t[i + 1];
  }

  lemma SeparateUnfolds(t: string, base: nat, first: bool)
    requires t != ""
    ensures
      Separate(t, base, first) <==>
      SeparatesAt(t, base, first, 0) && Separate(t[1..], base, Rank(t[0]) < base)
  {
    hide Rank, SeparatesAt;
    var rest, digit := t[1..], Rank(t[0]) < base;
    forall k: nat ensures SeparatesAt(rest, base, digit, k) <==> SeparatesAt(t, base, first, k + 1) {
      SeparatesLater(t, base, first, k);
    }
    if SeparatesAt(t, base, first, 0) && Separate(rest, base, digit) {
      forall k: nat ensures SeparatesAt(t, base, first, k) {
        if k > 0 {
          assert SeparatesAt(rest, base, digit, k - 1);
          assert SeparatesAt(t, base, first, (k - 1) + 1);
        }
      }
    }
    if Separate(t, base, first) {
      forall k: nat ensures SeparatesAt(rest, base, digit, k) {
        assert SeparatesAt(t, base, first, k + 1);
      }
    }
  }

  lemma {:induction false} FitExactly(t: string, hex: bool, saw: Saw)
    ensures
      UnderscoresFit(t, hex, saw) <==>
      && Separate(t, if hex then 16 else 10, saw == Digit)
      && (saw == Underscore ==> t != "" && Rank(t[0]) < if hex then 16 else 10)
  {
    if t != "" {
      var base := if hex then 16 else 10;
      DigitRank(t[0]);
      assert Rank('_') == 99;
      FitExactly(t[1..], hex, if Rank(t[0]) < base then Digit else if t[0] == '_' then Underscore else Other);
      SeparateUnfolds(t, base, saw == Digit);
      hide Rank, IsDigit, IsHexDigit, Separate;
    }
  }

  lemma PlacedExactly(s: string)
    ensures UnderscoresOK(s) <==> UnderscoresSeparate(s)
  {
    var body := Magnitude(s);
    hide UnderscoresFit, Separate;
    if HasPrefix(body, {'b', 'B', 'o', 'O', 'x', 'X'}) {
      FitExactly(body[2..], body[1] in {'x', 'X'}, Digit);
    } else {
      FitExactly(body, false, Nothing);
    }
  }

  /** Removing underscores leaves every other character in its place. */
  lemma {:induction false} OnlyUnderscoresGo(s: string, c: char, t: string)
    ensures
      WithoutUnderscores(s + ([c] + t)) ==
      WithoutUnderscores(s) + ((if c == '_' then "" else [c]) + WithoutUnderscores(t))
  {
    var tail := [c] + t;
    assert tail[1..] == t;
    if s == "" {
      assert s + tail == tail;
    } else {
      OnlyUnderscoresGo(s[1..], c, t);
      assert (s + tail)[1..] == s[1..] + tail;
      var a := if s[0] == '_' then "" else [s[0]];
      var x, y := WithoutUnderscores(s[1..]), (if c == '_' then "" else [c]) + WithoutUnderscores(t);
      assert a + (x + y) == (a + x) + y;
    }
  }

  // ---------------------------------------------------------------------------------------------
  // What a text denotes
  // ---------------------------------------------------------------------------------------------

  /** Without its underscores, which are where they may be, the text spells a numeral of this meaning. */
  ghost predicate Denotes(s: string, x: real) {
    && ('_' in s ==> UnderscoresSeparate(s))
    && exists n: Numeral ::
         n.WellFormed() && n.Spelled() == WithoutUnderscores(s) && n.Meaning() == x && n.Amount() < Overflow()
  }

  /** Without underscores, what is read is a numeral. */
  lemma ReadIsNumeral(t: string) returns (n: Numeral)
    requires ParseFloat(t).Some? && forall k :: 0 <= k < |t| ==> t[k] != '_'
    ensures n.WellFormed() && n.Spelled() == t && n.Amount() < Overflow() && ParseFloat(t) == Some(n.Meaning())
  {
    NothingRemoved(t);
    assert t == WithoutUnderscores(t);
    hide Overflow, Numeral.WellFormed, Numeral.Amount, Numeral.Spelled, Numeral.Meaning, UnderscoresOK;
    hide WithoutUnderscores, HasPrefix, Hexadecimal, Decimal, Magnitude;
    n := SignedIsSpelled(t);
    NumeralReads(n);
  }

  /** Underscores that separate digits do not change the number, any others make the text none. */
  lemma ReadThroughUnderscores(s: string)
    ensures ParseFloat(s) == if '_' in s && !UnderscoresSeparate(s) then None else ParseFloat(WithoutUnderscores(s))
  {
    var t := WithoutUnderscores(s);
    PlacedExactly(s);
    NothingLeft(s);
    NothingRemoved(t);
    hide UnderscoresOK, UnderscoresSeparate, WithoutUnderscores, HasPrefix, Hexadecimal, Decimal, Magnitude, Overflow;
  }

  /** The reader's number is what the text denotes, and a text that denotes none is refused. */
  lemma ReadExactly(s: string, x: real)
    ensures ParseFloat(s) == Some(x) <==> Denotes(s, x)
  {
    var t := WithoutUnderscores(s);
    ReadThroughUnderscores(s);
    NothingLeft(s);
    hide Overflow, Numeral.WellFormed, Numeral.Amount, Numeral.Spelled, Numeral.Meaning, UnderscoresSeparate;
    hide WithoutUnderscores, ParseFloat;
    if ParseFloat(s) == Some(x) {
      var n := ReadIsNumeral(t);
    }
    if Denotes(s, x) {
      var n: Numeral :| n.WellFormed() && n.Spelled() == t && n.Meaning() == x && n.Amount() < Overflow();
      NumeralReads(n);
    }
  }

  lemma {:induction false} NothingLeft(s: string)
    ensures forall k :: 0 <= k < |WithoutUnderscores(s)| ==> WithoutUnderscores(s)[k] != '_'
  {
    if s != "" {
      NothingLeft(s[1..]);
    }
  }
}
