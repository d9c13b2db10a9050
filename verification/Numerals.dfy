/** Numerals: reading them as integers and as exact real numbers, and printing decimal ones. */
module Numerals {
  import opened Options
  import opened Registers
  import D = Decode

  predicate IsDigit(c: char) { '0' <= c <= '9' }

  predicate AllDigits(s: string) {
    s != "" && forall c :: c in s ==> IsDigit(c)
  }

  function DigitsValue(s: string): nat
    requires forall c :: c in s ==> IsDigit(c)
  {
    if s == "" then 0 else
      assert IsDigit(s[|s| - 1]);
      10 * DigitsValue(s[..|s| - 1]) + (s[|s| - 1] as int - '0' as int)
  }

  predicate Signed(s: string) {
    s != "" && (s[0] == '+' || s[0] == '-')
  }

  /** The numeral without its sign. */
  function Magnitude(s: string): string {
    if Signed(s) then s[1..] else s
  }

  function IntWithSign(s: string, n: int): int {
    if s != "" && s[0] == '-' then -n else n
  }

  function WithSign(s: string, x: real): real {
    if s != "" && s[0] == '-' then -x else x
  }

  /** strconv.ParseInt(s, 10, 64) */
  function ParseInt(s: string): Option<int> {
    var body := Magnitude(s);
    if !AllDigits(body) then None
    else
      var n := DigitsValue(body);
      var i := IntWithSign(s, n);
      if -0x8000_0000_0000_0000 <= i < 0x8000_0000_0000_0000 then Some(i) else None
  }

  function Pow10(n: nat): (r: real)
    ensures r > 0.0
  {
    if n == 0 then 1.0 else 10.0 * Pow10(n - 1)
  }

  /** The first place of a character in `chars`, or |s|. */
  function Find(s: string, chars: set<char>): (i: nat)
    ensures i <= |s|
    ensures i < |s| ==> s[i] in chars
    ensures forall k :: 0 <= k < i ==> s[k] !in chars
  {
    if s == "" || s[0] in chars then 0 else
      var i := Find(s[1..], chars);
      assert forall k :: 0 < k < i + 1 ==> s[k] == s[1..][k - 1];
      i + 1
  }

  /** Digits with at most one point among them. */
  function Mantissa(m: string): Option<real> {
    var point := Find(m, {'.'});
    var whole, fraction := m[..point], if point < |m| then m[point + 1..] else "";
    if !AllDigits(whole + fraction) then None
    else Some(DigitsValue(whole + fraction) as real / Pow10(|fraction|))
  }

  function Exponent(e: string): Option<int> {
    if !AllDigits(Magnitude(e)) then None
    else
      Some(IntWithSign(e, DigitsValue(Magnitude(e))))
  }

  function TimesTen(m: real, e: int): real {
    if e >= 0 then m * Pow10(e) else m / Pow10(-e)
  }

  /** A decimal numeral without a sign: an optional point, an optional exponent of ten. */
  function Decimal(body: string): Option<real> {
    var mark := Find(body, {'e', 'E'});
    var m := Mantissa(body[..mark]);
    var e := if mark == |body| then Some(0) else Exponent(body[mark + 1..]);
    if m == None || e == None then None
    else Some(TimesTen(m.value, e.value))
  }

  function Pow2(n: nat): (r: real)
    ensures r > 0.0
  {
    if n == 0 then 1.0 else 2.0 * Pow2(n - 1)
  }

  function TimesTwo(m: real, e: int): real {
    if e >= 0 then m * Pow2(e) else m / Pow2(-e)
  }

  predicate IsHexDigit(c: char) { IsDigit(c) || 'a' <= c <= 'f' || 'A' <= c <= 'F' }

  function HexDigit(c: char): nat
    requires IsHexDigit(c)
  {
    if IsDigit(c) then c as int - '0' as int
    else if 'a' <= c then c as int - 'a' as int + 10
    else c as int - 'A' as int + 10
  }

  function HexValue(s: string): nat
    requires forall i :: 0 <= i < |s| ==> IsHexDigit(s[i])
  {
    if s == "" then 0 else 16 * HexValue(s[..|s| - 1]) + HexDigit(s[|s| - 1])
  }

  predicate AllHex(s: string) {
    s != "" && forall i :: 0 <= i < |s| ==> IsHexDigit(s[i])
  }

  /** Hexadecimal digits with at most one point among them. */
  function HexMantissa(m: string): Option<real> {
    var point := Find(m, {'.'});
    var whole, fraction := m[..point], if point < |m| then m[point + 1..] else "";
    if !AllHex(whole + fraction) then None
    else Some(HexValue(whole + fraction) as real / Pow2(4 * |fraction|))
  }

  /** What follows 0x: hexadecimal digits with an optional point, and an exponent of two. */
  function Hexadecimal(body: string): Option<real> {
    var mark := Find(body, {'p', 'P'});
    var m := HexMantissa(body[..mark]);
    var e := if mark == |body| then None else Exponent(body[mark + 1..]);
    if m == None || e == None then None
    else Some(TimesTwo(m.value, e.value))
  }

  predicate HasPrefix(body: string, letters: set<char>) {
    |body| > 1 && body[0] == '0' && body[1] in letters
  }

  datatype Saw = Nothing | Digit | Underscore | Other

  /** Underscores stand between digits only. */
  predicate UnderscoresFit(s: string, hex: bool, saw: Saw) {
    if s == "" then saw != Underscore
    else if IsDigit(s[0]) || (hex && IsHexDigit(s[0])) then UnderscoresFit(s[1..], hex, Digit)
    else if s[0] == '_' then saw == Digit && UnderscoresFit(s[1..], hex, Underscore)
    else saw != Underscore && UnderscoresFit(s[1..], hex, Other)
  }

  /** A base prefix counts as a digit before an underscore. */
  predicate UnderscoresOK(s: string) {
    var body := Magnitude(s);
    if HasPrefix(body, {'b', 'B', 'o', 'O', 'x', 'X'}) then
      UnderscoresFit(body[2..], body[1] in {'x', 'X'}, Digit)
    else
      UnderscoresFit(body, false, Nothing)
  }

  function WithoutUnderscores(s: string): string {
    if s == "" then "" else (if s[0] == '_' then "" else [s[0]]) + WithoutUnderscores(s[1..])
  }

  /** From here on the nearest float64 is an infinity, which is a range error. */
  function Overflow(): real {
    Pow2(1024) - Pow2(970)
  }

  lemma NextPower(n: nat)
    ensures Pow2(n + 1) == Pow2(n) + Pow2(n)
  {
  }

  /** It is half-way from the largest float64 to the next power of two. */
  lemma OverflowIsMidway()
    ensures
      var largest := Pow2(1024) - Pow2(971);
      Overflow() - largest == Pow2(1024) - Overflow() > 0.0
  {
    hide Pow2;
    NextPower(970);
  }

  /**
   The number a numeral denotes, before it is rounded to a float64 (strconv.ParseFloat). Infinities and
   texts that are no numbers give none; no reader here accepts them.
   */
  function ParseFloat(s: string): Option<real> {
    if '_' in s && !UnderscoresOK(s) then None
    else
      var t := WithoutUnderscores(s);
      var body := Magnitude(t);
      var x := if HasPrefix(body, {'x', 'X'}) then Hexadecimal(body[2..]) else Decimal(body);
      if x == None || x.value >= Overflow() then None else Some(WithSign(t, x.value))
  }

  lemma NoneFound(s: string, chars: set<char>)
    requires forall k :: 0 <= k < |s| ==> s[k] !in chars
    ensures Find(s, chars) == |s|
  {
    var i := Find(s, chars);
  }

  lemma DigitsAreNoMarks(s: string)
    requires AllDigits(s)
    ensures Find(s, {'e', 'E'}) == |s| && Find(s, {'.'}) == |s|
  {
    forall k | 0 <= k < |s| ensures IsDigit(s[k]) {
      assert s[k] in s;
    }
    NoneFound(s, {'e', 'E'});
    NoneFound(s, {'.'});
  }

  lemma {:induction false} NothingRemoved(s: string)
    requires forall k :: 0 <= k < |s| ==> s[k] != '_'
    ensures WithoutUnderscores(s) == s
  {
    if s != "" {
      assert forall k :: 0 <= k < |s| - 1 ==> s[1..][k] == s[k + 1];
      NothingRemoved(s[1..]);
    }
  }

  lemma {:induction false} Pow2Grows(m: nat, n: nat)
    requires m <= n
    ensures Pow2(m) <= Pow2(n)
    decreases n
  {
    if m < n {
      Pow2Grows(m, n - 1);
    }
  }

  lemma OverflowExceeds(n: nat)
    requires n <= 970
    ensures Pow2(n) <= Overflow()
  {
    var top, low := 1024, 970;
    Pow2Grows(n, low);
    Pow2Grows(low + 1, top);
    assert Pow2(low + 1) == 2.0 * Pow2(low);
  }

  lemma {:induction false} PowersMultiply(m: nat, n: nat)
    ensures Pow2(m + n) == Pow2(m) * Pow2(n)
    decreases n
  {
    if n > 0 {
      PowersMultiply(m, n - 1);
    }
  }

  lemma Squares(n: nat, m: nat, x: real)
    requires m == n + n && Pow2(n) == x
    ensures Pow2(m) == x * x
  {
    PowersMultiply(n, n);
  }

  lemma Pow2Of4()
    ensures Pow2(4) == 16.0
  {
  }

  lemma OverflowIsLarge()
    ensures Overflow() >= 18446744073709551616.0
  {
    hide Pow2, Overflow;
    Pow2Of4();
    Squares(4, 8, 16.0);
    Squares(8, 16, 256.0);
    Squares(16, 32, 65536.0);
    Squares(32, 64, 4294967296.0);
    OverflowExceeds(64);
  }

  /** Digits and points only. */
  predicate IsPlain(body: string) {
    forall k :: 0 <= k < |body| ==> IsDigit(body[k]) || body[k] == '.'
  }

  lemma PlainHasNoUnderscore(s: string)
    requires IsPlain(Magnitude(s))
    ensures '_' !in s && WithoutUnderscores(s) == s
  {
    var body := Magnitude(s);
    forall k | 0 <= k < |s| ensures s[k] != '_' {
      if Signed(s) && k > 0 {
        assert body[k - 1] == s[k];
      }
    }
    NothingRemoved(s);
  }

  lemma PlainIsDecimal(body: string, m: real)
    requires IsPlain(body) && Mantissa(body) == Some(m)
    ensures !HasPrefix(body, {'x', 'X'}) && Decimal(body) == Some(m)
  {
    NoneFound(body, {'e', 'E'});
    assert body[..|body|] == body && Pow10(0) == 1.0;
    hide Mantissa, Find;
  }

  /** A numeral of digits and a point denotes its mantissa, unless it is out of range. */
  lemma PlainReads(s: string, m: real)
    requires IsPlain(Magnitude(s)) && Mantissa(Magnitude(s)) == Some(m)
    ensures ParseFloat(s) == if m < Overflow() then Some(WithSign(s, m)) else None
  {
    PlainHasNoUnderscore(s);
    PlainIsDecimal(Magnitude(s), m);
    hide Overflow, Mantissa, Decimal, Hexadecimal, UnderscoresOK, WithoutUnderscores, IsPlain, HasPrefix;
  }

  lemma DigitsArePlain(s: string)
    requires AllDigits(s)
    ensures IsPlain(s) && Mantissa(s) == Some(DigitsValue(s) as real)
  {
    DigitsAreNoMarks(s);
    assert s[..|s|] == s && s + "" == s;
    assert Pow10(0) == 1.0;
    forall k | 0 <= k < |s| ensures IsDigit(s[k]) {
      assert s[k] in s;
    }
    hide Find, DigitsValue;
  }

  /** An integer numeral denotes the same number for both readers. */
  lemma IntegerIsFloat(s: string)
    requires ParseInt(s).Some?
    ensures ParseFloat(s) == Some(ParseInt(s).value as real)
  {
    hide DigitsValue, ParseFloat, Overflow, IsPlain, Mantissa;
    var body := Magnitude(s);
    DigitsArePlain(body);
    PlainReads(s, DigitsValue(body) as real);
    OverflowIsLarge();
  }

  // ---------------------------------------------------------------------------------------------
  // Printing
  // ---------------------------------------------------------------------------------------------

  lemma {:induction false} ItoaReads(n: nat)
    ensures AllDigits(D.Itoa(n)) && DigitsValue(D.Itoa(n)) == n
  {
    var s := D.Itoa(n);
    assert forall d: nat {:trigger D.Digit(d)} :: d < 10 ==> D.Digit(d) as int == '0' as int + d;
    if n < 10 {
      assert s == [D.Digit(n)] && s[..0] == "" && DigitsValue("") == 0;
    } else {
      ItoaReads(n / 10);
      assert s[..|s| - 1] == D.Itoa(n / 10) && s[|s| - 1] == D.Digit(n % 10);
    }
  }

  /** A whole number of tenths. */
  ghost predicate Tenths(x: real) {
    (x * 10.0).Floor as real == x * 10.0
  }

  lemma TenthsOfWhole(i: int)
    ensures Tenths(i as real)
  {
    assert i as real * 10.0 == (i * 10) as real;
  }

  /** The shortest decimal numeral of a whole number of tenths (strconv.FormatFloat, 'f', -1). */
  function FormatTenths(x: real): string
    requires Tenths(x)
  {
    FormatSigned((x * 10.0).Floor)
  }

  function FormatSigned(tenths: int): string {
    if tenths < 0 then "-" + FormatPositive(-tenths) else FormatPositive(tenths)
  }

  function FormatPositive(tenths: nat): string {
    if tenths % 10 == 0 then D.Itoa(tenths / 10) else D.Itoa(tenths / 10) + "." + D.Itoa(tenths % 10)
  }

  lemma PointIsFound(whole: string, fraction: string)
    requires AllDigits(whole) && AllDigits(fraction)
    ensures
      var s := whole + "." + fraction;
      && Find(s, {'e', 'E'}) == |s| && Find(s, {'.'}) == |whole|
      && s[..|whole|] == whole && s[|whole| + 1..] == fraction
  {
    var s := whole + "." + fraction;
    forall k | 0 <= k < |s| ensures k == |whole| || IsDigit(s[k]) {
      if k < |whole| {
        assert s[k] == whole[k] && whole[k] in whole;
      } else if k > |whole| {
        assert s[k] == fraction[k - |whole| - 1] && fraction[k - |whole| - 1] in fraction;
      }
    }
    assert s[|whole|] == '.';
    NoneFound(s, {'e', 'E'});
    var i := Find(s, {'.'});
  }

  lemma AppendedDigit(whole: string, fraction: string)
    requires AllDigits(whole) && AllDigits(fraction) && |fraction| == 1
    ensures AllDigits(whole + fraction)
    ensures DigitsValue(whole + fraction) == 10 * DigitsValue(whole) + DigitsValue(fraction)
  {
    var s := whole + fraction;
    assert s[..|s| - 1] == whole && fraction[..0] == "";
    assert DigitsValue("") == 0;
  }

  lemma MantissaWithPoint(whole: string, fraction: string)
    requires AllDigits(whole) && AllDigits(fraction) && |fraction| == 1
    ensures
      Mantissa(whole + "." + fraction) == Some((10 * DigitsValue(whole) + DigitsValue(fraction)) as real / 10.0)
  {
    hide Find, AllDigits, DigitsValue;
    PointIsFound(whole, fraction);
    AppendedDigit(whole, fraction);
    assert Pow10(1) == 10.0;
  }

  lemma PointedIsPlain(whole: string, fraction: string)
    requires AllDigits(whole) && AllDigits(fraction)
    ensures IsPlain(whole + "." + fraction)
  {
    var s := whole + "." + fraction;
    forall k | 0 <= k < |s| ensures IsDigit(s[k]) || s[k] == '.' {
      assert s[k] in whole || s[k] in fraction || s[k] == '.';
    }
  }

  lemma FractionReads(tenths: nat)
    requires tenths % 10 != 0
    ensures
      var s := FormatPositive(tenths);
      IsPlain(s) && Mantissa(s) == Some(tenths as real / 10.0)
  {
    var whole, fraction := D.Itoa(tenths / 10), D.Itoa(tenths % 10);
    assert |fraction| == 1;
    ItoaReads(tenths / 10);
    ItoaReads(tenths % 10);
    hide D.Itoa, IsPlain, AllDigits, DigitsValue, Mantissa;
    PointedIsPlain(whole, fraction);
    MantissaWithPoint(whole, fraction);
    assert 10 * (tenths / 10) + tenths % 10 == tenths;
  }

  lemma PositiveReads(tenths: nat)
    ensures
      var s := FormatPositive(tenths);
      && s != "" && IsDigit(s[0])
      && IsPlain(s) && Mantissa(s) == Some(tenths as real / 10.0)
  {
    var whole := D.Itoa(tenths / 10);
    ItoaReads(tenths / 10);
    assert whole[0] in whole;
    if tenths % 10 == 0 {
      DigitsAreNoMarks(whole);
      assert whole[..|whole|] == whole && whole + "" == whole;
      assert Pow10(0) == 1.0;
    } else {
      FractionReads(tenths);
    }
  }

  lemma UnsignedReads(n: nat)
    ensures
      var x := n as real / 10.0;
      ParseFloat(FormatPositive(n)) == if x < Overflow() then Some(x) else None
  {
    PositiveReads(n);
    hide FormatPositive, IsPlain, Mantissa, ParseFloat, Overflow;
    PlainReads(FormatPositive(n), n as real / 10.0);
  }

  lemma NegativeReads(n: nat)
    ensures
      var x := n as real / 10.0;
      ParseFloat("-" + FormatPositive(n)) == if x < Overflow() then Some(-x) else None
  {
    PositiveReads(n);
    hide FormatPositive, IsPlain, Mantissa, ParseFloat, Overflow;
    var body := FormatPositive(n);
    assert ("-" + body)[1..] == body;
    PlainReads("-" + body, n as real / 10.0);
  }

  lemma SignedReads(tenths: int)
    ensures
      var x := tenths as real / 10.0;
      ParseFloat(FormatSigned(tenths)) == if -Overflow() < x < Overflow() then Some(x) else None
  {
    OverflowIsLarge();
    hide FormatPositive, ParseFloat, Overflow;
    if tenths < 0 {
      NegativeReads(-tenths);
    } else {
      UnsignedReads(tenths);
    }
  }

  lemma ZeroReads()
    ensures ParseInt("0") == Some(0)
  {
    assert Magnitude("0") == "0" && AllDigits("0");
    assert "0"[..0] == "" && DigitsValue("") == 0;
  }

  lemma OneReads()
    ensures ParseInt("1") == Some(1)
  {
    assert Magnitude("1") == "1" && AllDigits("1");
    assert "1"[..0] == "" && DigitsValue("") == 0;
  }

  /** Printing and reading back gives the same number, as far as a float64 can hold it. */
  lemma FormatReads(x: real)
    requires Tenths(x)
    ensures ParseFloat(FormatTenths(x)) == if -Overflow() < x < Overflow() then Some(x) else None
  {
    SignedReads((x * 10.0).Floor);
    hide ParseFloat, FormatSigned, Overflow;
  }

  lemma PositiveEnds(tenths: nat)
    ensures var s := FormatPositive(tenths); s != "" && IsDigit(s[0]) && IsDigit(s[|s| - 1])
  {
    var whole, fraction := D.Itoa(tenths / 10), D.Itoa(tenths % 10);
    ItoaReads(tenths / 10);
    ItoaReads(tenths % 10);
    hide D.Itoa, DigitsValue;
    assert whole[0] in whole && whole[|whole| - 1] in whole && fraction[|fraction| - 1] in fraction;
    assert (whole + "." + fraction)[0] == whole[0];
  }

  /** A printed number begins and ends with no space. */
  lemma FormatEnds(x: real)
    requires Tenths(x)
    ensures
      var s := FormatTenths(x);
      s != "" && (s[0] == '-' || IsDigit(s[0])) && IsDigit(s[|s| - 1])
  {
    SignedEnds((x * 10.0).Floor);
    hide FormatSigned;
  }

  lemma SignedEnds(tenths: int)
    ensures
      var s := FormatSigned(tenths);
      s != "" && (s[0] == '-' || IsDigit(s[0])) && IsDigit(s[|s| - 1])
  {
    var n: nat := if tenths < 0 then -tenths else tenths;
    PositiveEnds(n);
    hide FormatPositive;
    assert ("-" + FormatPositive(n))[|FormatPositive(n)|] == FormatPositive(n)[|FormatPositive(n)| - 1];
  }
}
