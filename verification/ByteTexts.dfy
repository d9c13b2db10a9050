/** The decoder's texts of bytes and dates: which numbers they spell, with which marks between them. */
module ByteTexts {
  import opened Registers
  import opened Numerals
  import D = Decode

  /** A text falls into numbers, each with its count of digits, and single other characters. */
  datatype Token = Number(n: nat, digits: nat) | Mark(c: char)

  /** The length of the digits a text begins with. */
  function DigitRun(s: string): (n: nat)
    ensures n <= |s| && (n < |s| ==> !IsDigit(s[n]))
    ensures forall i :: 0 <= i < n ==> IsDigit(s[i])
  {
    if s == "" || !IsDigit(s[0]) then 0 else
      var n := DigitRun(s[1..]);
      assert forall i :: 0 < i < n + 1 ==> s[i] == s[1..][i - 1];
      n + 1
  }

  function Tokens(s: string): seq<Token>
    decreases |s|
  {
    if s == "" then []
    else if !IsDigit(s[0]) then [Mark(s[0])] + Tokens(s[1..])
    else
      var n := DigitRun(s);
      [Number(DigitsValue(s[..n]), n)] + Tokens(s[n..])
  }

  lemma DigitRunIs(digits: string, rest: string)
    requires AllDigits(digits) && (rest != "" ==> !IsDigit(rest[0]))
    ensures DigitRun(digits + rest) == |digits|
  {
    var s := digits + rest;
    var n := DigitRun(s);
    forall i | 0 <= i < |digits| ensures IsDigit(s[i]) {
      assert s[i] == digits[i] && digits[i] in digits;
    }
    assert rest != "" ==> s[|digits|] == rest[0];
  }

  /** A byte in decimal, with a leading zero below ten. */
  function ByteToken(n: nat): Token {
    Number(n, if n < 100 then 2 else 3)
  }

  lemma TwoDigitsRead(n: nat)
    requires n < 256
    ensures AllDigits(D.TwoDigits(n)) && DigitsValue(D.TwoDigits(n)) == n
    ensures |D.TwoDigits(n)| == if n < 100 then 2 else 3
  {
    ItoaReads(n);
    if n < 10 {
      var s := D.TwoDigits(n);
      assert s == "0" + D.Itoa(n) && |D.Itoa(n)| == 1;
      assert s[..1] == "0" && "0"[..0] == "" && DigitsValue("") == 0;
      assert D.Itoa(n)[..0] == "";
    } else {
      assert |D.Itoa(n)| == |D.Itoa(n / 10)| + 1;
      assert n >= 100 ==> |D.Itoa(n / 10)| == |D.Itoa(n / 10 / 10)| + 1;
    }
  }

  /** A number at the front of a text is its first token. */
  lemma NumberFirst(n: nat, rest: string)
    requires n < 256 && (rest != "" ==> !IsDigit(rest[0]))
    ensures Tokens(D.TwoDigits(n) + rest) == [ByteToken(n)] + Tokens(rest)
  {
    var digits := D.TwoDigits(n);
    TwoDigitsRead(n);
    DigitRunIs(digits, rest);
    var s := digits + rest;
    assert s[0] == digits[0] && digits[0] in digits;
    hide D.TwoDigits, DigitRun, AllDigits, DigitsValue;
    assert s[..|digits|] == digits && s[|digits|..] == rest;
  }

  lemma MarkFirst(c: char, rest: string)
    requires !IsDigit(c)
    ensures Tokens([c] + rest) == [Mark(c)] + Tokens(rest)
  {
    assert ([c] + rest)[1..] == rest;
  }

  lemma NumberThen(n: nat, c: char, rest: string)
    requires n < 256 && !IsDigit(c)
    ensures Tokens(D.TwoDigits(n) + ([c] + rest)) == [ByteToken(n), Mark(c)] + Tokens(rest)
  {
    hide Tokens, D.TwoDigits;
    NumberFirst(n, [c] + rest);
    MarkFirst(c, rest);
    assert [ByteToken(n)] + ([Mark(c)] + Tokens(rest)) == [ByteToken(n), Mark(c)] + Tokens(rest);
  }

  lemma NothingTokens()
    ensures Tokens("") == []
  {
  }

  lemma Assoc<T>(a: seq<T>, b: seq<T>, c: seq<T>)
    ensures (a + b) + c == a + (b + c)
  {
  }

  lemma RegroupFour(a: string, p: string, b: string, q: string, c: string, r: string, d: string)
    ensures a + p + b + q + c + r + d == a + (p + (b + (q + (c + (r + d)))))
  {
    var x := a + p + b + q;
    Assoc(x + c, r, d);
    Assoc(x, c, r + d);
    var tail := c + (r + d);
    Assoc(a + p + b, q, tail);
    Assoc(a + p, b, q + tail);
    Assoc(a, p, b + (q + tail));
  }

  lemma Regroup(a: string, p: string, b: string, q: string, c: string, r: string, d: string, s: string,
                e: string, t: string, f: string)
    ensures
      a + p + b + q + c + r + d + s + e + t + f ==
      a + (p + (b + (q + (c + (r + (d + (s + (e + (t + f)))))))))
  {
    var x := a + p + b + q + c + r;
    Assoc(x + d + s + e, t, f);
    Assoc(x + d + s, e, t + f);
    Assoc(x + d, s, e + (t + f));
    RegroupFour(a, p, b, q, c, r, d);
    var tail := s + (e + (t + f));
    Assoc(x, d, tail);
    RegroupFour(a, p, b, q, c, r, d + tail);
  }

  /** Year, month and day, a space, hour, minute and second. */
  function DateTokens(y: nat, m: nat, d: nat, h: nat, min: nat, s: nat): seq<Token> {
    [ByteToken(y), Mark('-')] + ([ByteToken(m), Mark('-')] + ([ByteToken(d), Mark(' ')] +
    ([ByteToken(h), Mark(':')] + ([ByteToken(min), Mark(':')] + [ByteToken(s)]))))
  }

  lemma DateText(y: nat, m: nat, d: nat, h: nat, min: nat, s: nat)
    requires y < 256 && m < 256 && d < 256 && h < 256 && min < 256 && s < 256
    ensures
      Tokens(D.TwoDigits(y) + (['-'] + (D.TwoDigits(m) + (['-'] + (D.TwoDigits(d) + ([' '] + (D.TwoDigits(h) +
        ([':'] + (D.TwoDigits(min) + ([':'] + D.TwoDigits(s))))))))))) ==
      DateTokens(y, m, d, h, min, s)
  {
    assert !IsDigit('-') && !IsDigit(' ') && !IsDigit(':');
    hide Tokens, D.TwoDigits, IsDigit;
    NumberFirst(s, "");
    NothingTokens();
    assert D.TwoDigits(s) + "" == D.TwoDigits(s) && [ByteToken(s)] + [] == [ByteToken(s)];
    var t5 := D.TwoDigits(min) + ([':'] + D.TwoDigits(s));
    NumberThen(min, ':', D.TwoDigits(s));
    var t4 := D.TwoDigits(h) + ([':'] + t5);
    NumberThen(h, ':', t5);
    var t3 := D.TwoDigits(d) + ([' '] + t4);
    NumberThen(d, ' ', t4);
    NumberThen(m, '-', t3);
    NumberThen(y, '-', D.TwoDigits(m) + (['-'] + t3));
  }

  /**
   A DAT register reads as the six bytes of its first three words in the layout yy-mm-dd hh:mm:ss, each
   with two digits at least.
   */
  lemma DateReads(reg: Register, raw: seq<Word>)
    requires reg.typ == DAT && |raw| >= D.Length(reg) >= 3
    ensures
      var r := D.Decode(reg, raw);
      r.Ok? && r.value.Text? &&
      Tokens(r.value.text) ==
        DateTokens(raw[0] / 256, raw[0] % 256, raw[1] / 256, raw[1] % 256, raw[2] / 256, raw[2] % 256)
  {
    var y, m, d, h := D.High(raw[0]), D.Low(raw[0]), D.High(raw[1]), D.Low(raw[1]);
    var min, s := D.High(raw[2]), D.Low(raw[2]);
    DateText(y, m, d, h, min, s);
    hide Tokens, D.TwoDigits, DateTokens;
    Regroup(D.TwoDigits(y), ['-'], D.TwoDigits(m), ['-'], D.TwoDigits(d), [' '],
            D.TwoDigits(h), [':'], D.TwoDigits(min), [':'], D.TwoDigits(s));
  }

  /** The two bytes of a word with a space between them. */
  function PairTokens(w: Word): seq<Token> {
    [ByteToken(w / 256), Mark(' '), ByteToken(w % 256)]
  }

  lemma PairReads(w: Word, rest: string)
    requires rest != "" ==> !IsDigit(rest[0])
    ensures Tokens(D.Pair(w) + rest) == PairTokens(w) + Tokens(rest)
  {
    assert !IsDigit(' ');
    hide Tokens, D.TwoDigits, IsDigit;
    var h, l := w / 256, w % 256;
    var high, low := D.TwoDigits(h), D.TwoDigits(l);
    NumberFirst(l, rest);
    NumberThen(h, ' ', low + rest);
    Assoc(high, " ", low);
    Assoc(high, " " + low, rest);
    Assoc(" ", low, rest);
    Assoc([ByteToken(h), Mark(' ')], [ByteToken(l)], Tokens(rest));
  }

  lemma PairThen(w: Word, gap: string, rest: string)
    requires gap == " " || gap == "  "
    ensures
      Tokens(D.Pair(w) + (gap + rest)) ==
      PairTokens(w) + ((if gap == " " then [Mark(' ')] else [Mark(' '), Mark(' ')]) + Tokens(rest))
  {
    assert !IsDigit(' ');
    assert (gap + rest)[0] == ' ';
    PairReads(w, gap + rest);
    hide Tokens, D.Pair, IsDigit;
    MarkFirst(' ', rest);
    if gap == "  " {
      MarkFirst(' ', [' '] + rest);
      assert gap + rest == [' '] + ([' '] + rest);
      assert [Mark(' ')] + ([Mark(' ')] + Tokens(rest)) == [Mark(' '), Mark(' ')] + Tokens(rest);
    } else {
      assert gap + rest == [' '] + rest;
    }
  }

  /** Pairs of bytes, one space apart inside a register of two words and two between the registers. */
  function BytesTokens(raw: seq<Word>): seq<Token> {
    match |raw|
    case 1 => PairTokens(raw[0])
    case 2 => PairTokens(raw[0]) + ([Mark(' '), Mark(' ')] + PairTokens(raw[1]))
    case 4 =>
      PairTokens(raw[0]) + ([Mark(' ')] + (PairTokens(raw[1]) + ([Mark(' '), Mark(' ')] + (PairTokens(raw[2]) +
      ([Mark(' ')] + PairTokens(raw[3]))))))
    case _ => []
  }

  lemma OneWord(w: Word)
    ensures Tokens(D.Pair(w)) == PairTokens(w)
  {
    PairReads(w, "");
    NothingTokens();
    hide Tokens, D.Pair;
    assert D.Pair(w) + "" == D.Pair(w) && PairTokens(w) + [] == PairTokens(w);
  }

  lemma FourWords(a: Word, b: Word, c: Word, d: Word)
    ensures Tokens(D.Pair(a) + " " + D.Pair(b) + "  " + D.Pair(c) + " " + D.Pair(d)) == BytesTokens([a, b, c, d])
  {
    hide Tokens, PairTokens, D.Pair;
    OneWord(d);
    var third := D.Pair(c) + (" " + D.Pair(d));
    PairThen(c, " ", D.Pair(d));
    var second := D.Pair(b) + ("  " + third);
    PairThen(b, "  ", third);
    PairThen(a, " ", second);
    RegroupFour(D.Pair(a), " ", D.Pair(b), "  ", D.Pair(c), " ", D.Pair(d));
  }

  lemma FormatByteReads(raw: seq<Word>)
    requires |raw| > 0
    ensures
      match D.FormatByte(raw, |raw|)
      case Ok(v) => |raw| in {1, 2, 4} && v.Text? && Tokens(v.text) == BytesTokens(raw)
      case Err(_) => |raw| !in {1, 2, 4}
  {
    hide Tokens, PairTokens, D.Pair;
    match |raw|
    case 1 =>
      OneWord(raw[0]);
    case 2 =>
      OneWord(raw[1]);
      PairThen(raw[0], "  ", D.Pair(raw[1]));
      Assoc(D.Pair(raw[0]), "  ", D.Pair(raw[1]));
    case 4 =>
      FourWords(raw[0], raw[1], raw[2], raw[3]);
      assert raw == [raw[0], raw[1], raw[2], raw[3]];
    case _ =>
  }

  /** A BYTE register of one, two or four words reads as its bytes in order, and no other one reads. */
  lemma BytesRead(reg: Register, raw: seq<Word>)
    requires reg.typ == BYTE && |raw| >= D.Length(reg)
    ensures
      match D.Decode(reg, raw)
      case Ok(v) => D.Length(reg) in {1, 2, 4} && v.Text? && Tokens(v.text) == BytesTokens(raw[..D.Length(reg)])
      case Err(_) => D.Length(reg) !in {1, 2, 4}
  {
    FormatByteReads(raw[..D.Length(reg)]);
    hide Tokens, BytesTokens, D.FormatByte;
  }
}
