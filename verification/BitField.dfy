/** From the words of a fault register to the names of its faults, and from codes to labels. */
module BitField {
  import opened Options
  import opened Registers
  import D = Decode
  import opened Text

  // ---------------------------------------------------------------------------------------------
  // Bits
  // ---------------------------------------------------------------------------------------------

  predicate Bit(n: nat, i: nat)
    decreases i
  {
    if i == 0 then n % 2 == 1 else Bit(n / 2, i - 1)
  }

  /** a & b */
  function And(a: nat, b: nat): nat {
    if a == 0 || b == 0 then 0 else 2 * And(a / 2, b / 2) + (if a % 2 == 1 && b % 2 == 1 then 1 else 0)
  }

  /** a &^ b */
  function AndNot(a: nat, b: nat): nat {
    if a == 0 then 0 else 2 * AndNot(a / 2, b / 2) + (if a % 2 == 1 && b % 2 == 0 then 1 else 0)
  }

  lemma {:induction false} ZeroHasNoBit(i: nat)
    ensures !Bit(0, i)
    decreases i
  {
    if i > 0 {
      ZeroHasNoBit(i - 1);
    }
  }

  lemma {:induction false} AndBits(a: nat, b: nat, i: nat)
    ensures Bit(And(a, b), i) <==> Bit(a, i) && Bit(b, i)
    decreases i
  {
    ZeroHasNoBit(i);
    if a != 0 && b != 0 && i > 0 {
      assert And(a, b) / 2 == And(a / 2, b / 2);
      AndBits(a / 2, b / 2, i - 1);
    }
  }

  lemma {:induction false} AndNotBits(a: nat, b: nat, i: nat)
    ensures Bit(AndNot(a, b), i) <==> Bit(a, i) && !Bit(b, i)
    decreases i
  {
    ZeroHasNoBit(i);
    if a != 0 && i > 0 {
      assert AndNot(a, b) / 2 == AndNot(a / 2, b / 2);
      AndNotBits(a / 2, b / 2, i - 1);
    }
  }

  lemma {:induction false} HighestBit(n: nat) returns (i: nat)
    requires n > 0
    ensures Bit(n, i)
  {
    if n == 1 {
      i := 0;
    } else {
      i := HighestBit(n / 2);
      i := i + 1;
    }
  }

  /** The two numbers have a bit in common. */
  ghost predicate Meet(a: nat, b: nat) {
    exists i: nat :: Bit(a, i) && Bit(b, i)
  }

  lemma MeetIsAnd(a: nat, b: nat)
    ensures And(a, b) != 0 <==> Meet(a, b)
  {
    if And(a, b) != 0 {
      var i := HighestBit(And(a, b));
      AndBits(a, b, i);
    }
    if i: nat :| Bit(a, i) && Bit(b, i) {
      AndBits(a, b, i);
      ZeroHasNoBit(i);
    }
  }

  // ---------------------------------------------------------------------------------------------
  // Parsing the decoder's text back
  // ---------------------------------------------------------------------------------------------

  function WithoutSpaces(s: string): string {
    if s == "" then "" else
      WithoutSpaces(s[..|s| - 1]) + (if s[|s| - 1] == ' ' then "" else [s[|s| - 1]])
  }

  predicate IsBinary(s: string) {
    forall i :: 0 <= i < |s| ==> s[i] == '0' || s[i] == '1'
  }

  function BinaryValue(s: string): nat {
    if s == "" then 0 else 2 * BinaryValue(s[..|s| - 1]) + (if s[|s| - 1] == '1' then 1 else 0)
  }

  /** strconv.ParseUint(s, 2, 64) */
  function ParseBits(s: string): Option<nat> {
    if s != "" && IsBinary(s) && BinaryValue(s) < 0x1_0000_0000_0000_0000 then Some(BinaryValue(s)) else None
  }

  function Pow2(n: nat): nat {
    if n == 0 then 1 else 2 * Pow2(n - 1)
  }

  lemma {:induction false} SpacesVanish(s: string, t: string)
    ensures WithoutSpaces(s + t) == WithoutSpaces(s) + WithoutSpaces(t)
    decreases |t|
  {
    if t == "" {
      assert s + t == s;
    } else {
      assert (s + t)[..|s + t| - 1] == s + t[..|t| - 1];
      SpacesVanish(s, t[..|t| - 1]);
    }
  }

  lemma {:induction false} BinaryHasNoSpaces(s: string)
    requires IsBinary(s)
    ensures WithoutSpaces(s) == s
  {
    if s != "" {
      BinaryHasNoSpaces(s[..|s| - 1]);
      assert s == s[..|s| - 1] + [s[|s| - 1]];
    }
  }

  lemma {:induction false} BinaryAppends(s: string, n: nat, width: nat)
    requires n < Pow2(width)
    ensures BinaryValue(s + D.Binary(n, width)) == BinaryValue(s) * Pow2(width) + n
    decreases width
  {
    if width == 0 {
      assert s + D.Binary(n, width) == s;
    } else {
      var init := s + D.Binary(n / 2, width - 1);
      var last := if n % 2 == 1 then '1' else '0';
      assert s + D.Binary(n, width) == init + [last];
      BinaryAppends(s, n / 2, width - 1);
      DigitAppends(init, last);
      DoublePower(BinaryValue(s), width);
      hide BinaryValue, D.Binary, Pow2;
    }
  }

  lemma DigitAppends(s: string, digit: char)
    ensures BinaryValue(s + [digit]) == 2 * BinaryValue(s) + if digit == '1' then 1 else 0
  {
    assert (s + [digit])[..|s|] == s;
  }

  lemma DoublePower(n: nat, width: nat)
    requires width > 0
    ensures n * Pow2(width) == 2 * (n * Pow2(width - 1))
  {
  }

  lemma WordAppends(s: string, w: Word)
    ensures BinaryValue(s + D.Binary(w, 16)) == BinaryValue(s) * 65536 + w
  {
    PowerOfWord(0);
    BinaryAppends(s, w, 16);
  }

  lemma FlatAppends(s: string, w: Word)
    ensures WithoutSpaces(s + " " + D.Binary(w, 16)) == WithoutSpaces(s) + D.Binary(w, 16)
  {
    var bin := D.Binary(w, 16);
    BinaryHasNoSpaces(bin);
    SpacesVanish(s + " ", bin);
    SpacesVanish(s, " ");
    assert WithoutSpaces(" ") == "";
  }

  /** Flattened and parsed, the decoder's text is the big-endian number of the words. */
  lemma {:induction false} FormatRoundTrip(raw: seq<Word>)
    ensures IsBinary(WithoutSpaces(D.FormatBit(raw)))
    ensures raw != [] ==> WithoutSpaces(D.FormatBit(raw)) != ""
    ensures BinaryValue(WithoutSpaces(D.FormatBit(raw))) == D.Number(raw)
  {
    if raw == [] {
      assert WithoutSpaces("") == "" && BinaryValue("") == 0;
    } else {
      var init, last := raw[..|raw| - 1], raw[|raw| - 1];
      var head := WithoutSpaces(D.FormatBit(init));
      var bin := D.Binary(last, 16);
      FormatRoundTrip(init);
      WordAppends(head, last);
      hide BinaryValue, D.Binary;
      if |raw| == 1 {
        assert head + bin == bin;
        BinaryHasNoSpaces(bin);
      } else {
        FlatAppends(D.FormatBit(init), last);
      }
    }
  }

  lemma WordDigits(w: Word)
    ensures IsBinary(D.Binary(w, 16)) && BinaryValue(D.Binary(w, 16)) == w
  {
    WordAppends("", w);
    var bin := D.Binary(w, 16);
    hide D.Binary;
    assert "" + bin == bin && BinaryValue("") == 0;
  }

  lemma Inside(s: string, head: string, tail: string, i: nat)
    requires s == head + tail && i + 16 <= |head|
    ensures s[i..i + 16] == head[i..i + 16]
  {
  }

  lemma AtEnd(s: string, i: nat)
    requires |s| == i + 16
    ensures s[i..i + 16] == s[i..]
  {
  }

  lemma {:induction false} FieldLength(raw: seq<Word>)
    requires raw != []
    ensures |D.FormatBit(raw)| == 17 * |raw| - 1
  {
    if |raw| > 1 {
      FieldLength(raw[..|raw| - 1]);
    }
  }

  lemma FieldSplits(raw: seq<Word>)
    requires |raw| > 1
    ensures
      var n := |raw| - 1;
      D.FormatBit(raw) == D.FormatBit(raw[..n]) + (" " + D.Binary(raw[n], 16)) && |D.FormatBit(raw[..n])| == 17 * n - 1
  {
    FieldLength(raw[..|raw| - 1]);
    var head, bin := D.FormatBit(raw[..|raw| - 1]), D.Binary(raw[|raw| - 1], 16);
    assert (head + " ") + bin == head + (" " + bin);
  }

  lemma LastWord(raw: seq<Word>)
    requires raw != []
    ensures |D.FormatBit(raw)| == 17 * |raw| - 1
    ensures D.FormatBit(raw)[17 * (|raw| - 1)..] == D.Binary(raw[|raw| - 1], 16)
  {
    FieldLength(raw);
    if |raw| == 1 {
      assert D.FormatBit(raw) == D.Binary(raw[0], 16);
    } else {
      FieldSplits(raw);
      var head, bin := D.FormatBit(raw[..|raw| - 1]), D.Binary(raw[|raw| - 1], 16);
      hide D.FormatBit, D.Binary;
      assert (head + (" " + bin))[|head| + 1..] == bin;
    }
  }

  /** Sixteen digits a word, in the order of the words. */
  lemma {:induction false} WordsInOrder(raw: seq<Word>, k: nat)
    requires k < |raw|
    ensures |D.FormatBit(raw)| == 17 * |raw| - 1
    ensures D.FormatBit(raw)[17 * k..17 * k + 16] == D.Binary(raw[k], 16)
  {
    hide D.FormatBit, D.Binary;
    var n := |raw| - 1;
    LastWord(raw);
    if k < n {
      WordsInOrder(raw[..n], k);
      FieldSplits(raw);
      Inside(D.FormatBit(raw), D.FormatBit(raw[..n]), " " + D.Binary(raw[n], 16), 17 * k);
    } else {
      AtEnd(D.FormatBit(raw), 17 * k);
    }
  }

  /** One space after each word but the last. */
  lemma {:induction false} SpacesBetween(raw: seq<Word>, k: nat)
    requires k + 1 < |raw|
    ensures |D.FormatBit(raw)| == 17 * |raw| - 1 && D.FormatBit(raw)[17 * k + 16] == ' '
  {
    FieldLength(raw);
    FieldSplits(raw);
    var n := |raw| - 1;
    if k + 1 < n {
      SpacesBetween(raw[..n], k);
    }
  }

  lemma FieldText(reg: Register, raw: seq<Word>)
    requires reg.typ == BIT && |raw| >= D.Length(reg)
    ensures D.Decode(reg, raw) == D.Ok(D.Text(D.FormatBit(raw[..D.Length(reg)])))
  {
    hide D.FormatBit;
  }

  /** A BIT register reads as a text that holds, without its spaces, the big-endian number of its words. */
  lemma FieldReads(reg: Register, raw: seq<Word>)
    requires reg.typ == BIT && |raw| >= D.Length(reg)
    ensures
      var r := D.Decode(reg, raw);
      && r.Ok? && r.value.Text?
      && IsBinary(WithoutSpaces(r.value.text))
      && BinaryValue(WithoutSpaces(r.value.text)) == D.Number(raw[..D.Length(reg)])
  {
    FieldText(reg, raw);
    FormatRoundTrip(raw[..D.Length(reg)]);
    hide D.Decode, D.FormatBit, WithoutSpaces, BinaryValue, D.Number;
  }

  /** And the text shows each word in its place. */
  lemma FieldLayout(reg: Register, raw: seq<Word>, k: nat)
    requires reg.typ == BIT && |raw| >= D.Length(reg) && k < D.Length(reg)
    ensures
      var r := D.Decode(reg, raw);
      && r.Ok? && r.value.Text? && |r.value.text| == 17 * D.Length(reg) - 1
      && (var word := r.value.text[17 * k..17 * k + 16]; IsBinary(word) && BinaryValue(word) == raw[k])
      && (k + 1 < D.Length(reg) ==> r.value.text[17 * k + 16] == ' ')
  {
    FieldText(reg, raw);
    hide D.Decode, D.FormatBit;
    var words := raw[..D.Length(reg)];
    WordsInOrder(words, k);
    WordDigits(raw[k]);
    if k + 1 < |words| {
      SpacesBetween(words, k);
    }
    hide D.FormatBit, D.Binary, BinaryValue, IsBinary;
  }

  function WordPower(n: nat): nat {
    if n == 0 then 1 else 65536 * WordPower(n - 1)
  }

  lemma {:induction false} NumberBounds(raw: seq<Word>)
    ensures D.Number(raw) < WordPower(|raw|)
    ensures D.Number(raw) == 0 <==> forall i :: 0 <= i < |raw| ==> raw[i] == 0
  {
    if raw != [] {
      var init := raw[..|raw| - 1];
      NumberBounds(init);
      assert forall i :: 0 <= i < |init| ==> raw[i] == init[i];
    }
  }

  lemma PowerOfFour(n: nat)
    ensures Pow2(n + 4) == 16 * Pow2(n)
  {
    assert Pow2(n + 1) == 2 * Pow2(n) && Pow2(n + 2) == 2 * Pow2(n + 1) && Pow2(n + 3) == 2 * Pow2(n + 2);
  }

  lemma PowerOfWord(n: nat)
    ensures Pow2(n + 16) == Pow2(n) * 65536
  {
    PowerOfFour(n);
    PowerOfFour(n + 4);
    PowerOfFour(n + 8);
    PowerOfFour(n + 12);
  }
}
