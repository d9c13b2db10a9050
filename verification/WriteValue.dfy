/** From a command's text to the word that goes to the device. */
module WriteValue {
  import opened Options
  import opened Registers
  import opened Numerals
  import opened Text
  import Spelling
  import L = Loader

  datatype Error = UnknownRegister | NotWritable | PseudoUnsupported | ValueParse

  datatype Parsed = Ok(word: Word) | Err(error: Error)

  /** The divisor of the decoder; everything below 1 means none. */
  function Factor(scale: int): (k: int)
    ensures k >= 1
  {
    if scale < 1 then 1 else scale
  }

  /**
   The integer is bounded before it is multiplied, so the product cannot leave the range; every other
   numeral is multiplied as a real number and cut to an integer.
   */
  function ParseWriteValue(s: string, scale: int): Parsed {
    var k := Factor(scale);
    match ParseInt(s)
    case Some(i) =>
      if i < 0 || i > 0xFFFF / k then Err(ValueParse) else
        assert 0 <= i * k <= (0xFFFF / k) * k;
        Ok(i * k)
    case None =>
      match ParseFloat(s)
      case None => Err(ValueParse)
      case Some(f) =>
        var scaled := f * k as real;
        if scaled < 0.0 || scaled > 65535.0 then Err(ValueParse) else Ok(scaled.Floor)
  }

  /** Whichever of the two branches reads it, a numeral gives the floor of its product with the scale. */
  lemma AcceptsRead(s: string, scale: int)
    ensures
      var k := Factor(scale);
      ParseWriteValue(s, scale) ==
      match ParseFloat(s)
      case Some(v) => if 0.0 <= v * k as real <= 65535.0 then Ok((v * k as real).Floor) else Err(ValueParse)
      case None => Err(ValueParse)
  {
    hide ParseInt, ParseFloat, Factor;
    if ParseInt(s).Some? {
      var i, k := ParseInt(s).value, Factor(scale);
      IntegerIsFloat(s);
      Quotient(i, k);
      RealProduct(i, k);
    }
  }

  /**
   A text is accepted exactly when it spells a number v with 0 <= v * scale <= 65535, and gives the floor
   of the product.
   */
  lemma AcceptsExactly(s: string, scale: int, w: Word)
    ensures
      var k := if scale > 1 then scale as real else 1.0;
      ParseWriteValue(s, scale) == Ok(w) <==>
      exists v :: Spelling.Denotes(s, v) && 0.0 <= v * k <= 65535.0 && (v * k).Floor == w
  {
    AcceptsRead(s, scale);
    hide ParseWriteValue, ParseFloat, Spelling.Denotes;
    var k := if scale > 1 then scale as real else 1.0;
    if ParseFloat(s).Some? {
      Spelling.ReadExactly(s, ParseFloat(s).value);
    }
    forall v | Spelling.Denotes(s, v) ensures ParseFloat(s) == Some(v) {
      Spelling.ReadExactly(s, v);
    }
  }

  /** A numeral for a register: its meaning by the scale, cut to the word, or a refusal. */
  lemma NumeralIsWritten(n: Spelling.Numeral, scale: int)
    requires n.WellFormed()
    ensures
      var scaled := n.Meaning() * Factor(scale) as real;
      ParseWriteValue(n.Spelled(), scale) == if 0.0 <= scaled <= 65535.0 then Ok(scaled.Floor) else Err(ValueParse)
  {
    hide ParseWriteValue, ParseFloat, Factor, Overflow, Spelling.Numeral.WellFormed, Spelling.Numeral.Spelled;
    hide Spelling.Numeral.Amount;
    Spelling.NumeralReads(n);
    OverflowIsLarge();
    var x, k := n.Meaning(), Factor(scale);
    assert n.Amount() >= Overflow() ==> !(-65535.0 <= x <= 65535.0);
    hide Spelling.Numeral.Meaning;
    if n.Amount() >= Overflow() {
      TooLarge(x, k);
    }
    AcceptsRead(n.Spelled(), scale);
  }

  /** A number that is too large for a float64 is out of a register's range, too. */
  lemma TooLarge(x: real, k: int)
    requires k >= 1 && !(-65535.0 <= x <= 65535.0)
    ensures !(0.0 <= x * k as real <= 65535.0)
  {
    if x > 0.0 {
      assert x * k as real >= x;
    } else {
      assert x * k as real < 0.0;
    }
  }

  lemma RealProduct(i: int, k: int)
    ensures i as real * k as real == (i * k) as real
  {
  }

  lemma Multiples(a: int, b: int, k: int)
    requires a <= b && k >= 1
    ensures a * k <= b * k
  {
    assert (b - a) * k >= 0;
  }

  lemma Quotient(i: int, k: int)
    requires k >= 1
    ensures 0 <= i <= 0xFFFF / k <==> 0 <= i * k <= 0xFFFF
  {
    var most := 0xFFFF / k;
    assert most * k <= 0xFFFF < (most + 1) * k;
    if i > most {
      Multiples(most + 1, i, k);
    } else if i < 0 {
      Multiples(i, -1, k);
    } else {
      Multiples(0, i, k);
      Multiples(i, most, k);
    }
  }

  /** The bounds a number entity advertises, None for a percentage: Home Assistant's own 0..100. */
  function NumberBounds(reg: Register): Option<(real, real)> {
    if reg.unit == "%" then None else Some((0.0, 65535.0 / Factor(reg.scale) as real))
  }

  /** Unless the register is in percent, the numbers accepted are exactly those within the advertised bounds. */
  lemma AdvertisedIsAccepted(reg: Register, s: string)
    ensures
      match NumberBounds(reg)
      case None => reg.unit == "%"
      case Some((lo, hi)) =>
        reg.unit != "%" &&
        (ParseWriteValue(s, reg.scale).Ok? <==> exists v :: Spelling.Denotes(s, v) && lo <= v <= hi)
  {
    hide ParseWriteValue, ParseFloat, Factor, Spelling.Denotes;
    AcceptsRead(s, reg.scale);
    if ParseFloat(s).Some? {
      BoundScales(ParseFloat(s).value, Factor(reg.scale));
      Spelling.ReadExactly(s, ParseFloat(s).value);
    }
    forall v | Spelling.Denotes(s, v) ensures ParseFloat(s) == Some(v) {
      Spelling.ReadExactly(s, v);
    }
  }

  lemma BoundScales(v: real, k: int)
    requires k >= 1
    ensures 0.0 <= v * k as real <= 65535.0 <==> 0.0 <= v <= 65535.0 / k as real
  {
    var x := k as real;
    var hi := 65535.0 / x;
    assert hi * x == 65535.0;
    Ordered(v, hi, x);
    Ordered(0.0, v, x);
    Ordered(hi, v, x);
    Ordered(v, 0.0, x);
  }

  lemma Ordered(a: real, b: real, x: real)
    requires x > 0.0
    ensures a <= b ==> a * x <= b * x
    ensures a < b ==> a * x < b * x
  {
    if a < b {
      assert (b - a) * x > 0.0;
    }
  }

  // ---------------------------------------------------------------------------------------------
  // A command for a register
  // ---------------------------------------------------------------------------------------------

  ghost predicate Labelled(items: map<int, string>, text: string, c: int) {
    c in items && items[c] == text
  }

  /** The label may be written as code c: its English label is the text, or the German one if no English is. */
  ghost predicate MayMean(reg: Register, text: string, c: int) {
    || Labelled(reg.Items(), text, c)
    || (Labelled(reg.itemsDE, text, c) && forall d :: !Labelled(reg.Items(), text, d))
  }

  /** The loops over the two maps return the first code they happen upon. */
  method CodeForLabel(reg: Register, text: string) returns (code: Option<int>)
    ensures code == None ==> forall c :: !MayMean(reg, text, c)
    ensures code.Some? ==> MayMean(reg, text, code.value)
  {
    var items := reg.Items();
    if c :| c in items && items[c] == text {
      return Some(c);
    }
    if c :| c in reg.itemsDE && reg.itemsDE[c] == text {
      return Some(c);
    }
    return None;
  }

  /** What becomes of a command: one word written to one address, or a refusal. */
  datatype Outcome = Write(address: Word, word: Word) | Refused(error: Error)

  function WriteCode(address: Word, code: int): Outcome {
    if code < 0 || code > 0xFFFF then Refused(ValueParse) else Write(address, code)
  }

  function WriteNumber(reg: Register, text: string): Outcome {
    match ParseWriteValue(text, reg.scale)
    case Ok(word) => Write(reg.address, word)
    case Err(error) => Refused(error)
  }

  /** An outcome the command can have; more than one can only when several codes share the label. */
  ghost predicate MayHappen(rs: seq<Register>, name: string, value: string, o: Outcome) {
    var text := TrimSpace(value);
    match L.FindByMqtt(rs, name)
    case None => o == Refused(UnknownRegister)
    case Some(reg) =>
      if !reg.writable then o == Refused(NotWritable)
      else if !reg.IsModbus() then o == Refused(PseudoUnsupported)
      else
        || (exists c :: MayMean(reg, text, c) && o == WriteCode(reg.address, c))
        || ((forall c :: !MayMean(reg, text, c)) && o == WriteNumber(reg, text))
  }

  method WriteRegisterByMQTT(rs: seq<Register>, name: string, value: string) returns (o: Outcome)
    ensures MayHappen(rs, name, value, o)
  {
    var text := TrimSpace(value);
    var found := L.FindByMqtt(rs, name);
    if found == None {
      return Refused(UnknownRegister);
    }
    var reg := found.value;
    if !reg.writable {
      return Refused(NotWritable);
    }
    if !reg.IsModbus() {
      return Refused(PseudoUnsupported);
    }
    var code := CodeForLabel(reg, text);
    if code.Some? {
      if code.value < 0 || code.value > 0xFFFF {
        return Refused(ValueParse);
      }
      return Write(reg.address, code.value);
    }
    var raw := ParseWriteValue(text, reg.scale);
    if raw.Err? {
      return Refused(raw.error);
    }
    return Write(reg.address, raw.word);
  }

  /** No two codes share an English or a German label, and no German label is another code's English one. */
  ghost predicate DistinctLabels(reg: Register) {
    && (forall c, d, text :: Labelled(reg.Items(), text, c) && Labelled(reg.Items(), text, d) ==> c == d)
    && (forall c, d, text :: Labelled(reg.itemsDE, text, c) && Labelled(reg.itemsDE, text, d) ==> c == d)
    && (forall c, d, text :: Labelled(reg.itemsDE, text, c) && Labelled(reg.Items(), text, d) ==> c == d)
  }

  /** An option chosen in either language is written as the code it stands for, and as no other. */
  lemma OptionIsItsCode(reg: Register, lang: string, c: int, o: int)
    requires reg.items.Some? && c in reg.Items() && DistinctLabels(reg)
    ensures MayMean(reg, reg.LocalizedValueItems(lang).value[c], o) <==> o == c
  {
    var text := reg.LocalizedValueItems(lang).value[c];
    if reg.Items()[c] == text {
      assert Labelled(reg.Items(), text, c);
    } else {
      assert Labelled(reg.itemsDE, text, c);
      forall d ensures !Labelled(reg.Items(), text, d) {
      }
    }
  }

  /** The command is for a register that can be written. */
  ghost predicate Writable(rs: seq<Register>, reg: Register) {
    L.FindByMqtt(rs, reg.mqtt) == Some(reg) && reg.writable && reg.IsModbus()
  }

  /** An option, with any white space around it, writes the code it stands for; a word must hold it. */
  lemma OptionIsWritten(rs: seq<Register>, reg: Register, lang: string, c: int, before: string, after: string,
                        o: Outcome)
    requires Writable(rs, reg) && reg.items.Some? && c in reg.Items() && DistinctLabels(reg)
    requires Blank(before) && Blank(after)
    requires
      var word := reg.LocalizedValueItems(lang).value[c];
      word != "" ==> word[0] !in SPACES && word[|word| - 1] !in SPACES
    ensures
      MayHappen(rs, reg.mqtt, before + reg.LocalizedValueItems(lang).value[c] + after, o) <==>
      o == if 0 <= c <= 0xFFFF then Write(reg.address, c) else Refused(ValueParse)
  {
    var word := reg.LocalizedValueItems(lang).value[c];
    PaddedTrims(before, word, after);
    forall d ensures MayMean(reg, word, d) <==> d == c {
      OptionIsItsCode(reg, lang, c, d);
    }
    hide MayMean, TrimSpace;
    assert MayMean(reg, word, c);
  }

  lemma NumeralTrims(n: Spelling.Numeral, before: string, after: string)
    requires n.WellFormed() && Blank(before) && Blank(after)
    ensures TrimSpace(before + n.Spelled() + after) == n.Spelled()
  {
    assert Spelling.Strange(SPACES);
    Spelling.HasNoStrangers(n, SPACES);
    hide TrimSpace, Blank, Spelling.Numeral.WellFormed, Spelling.Numeral.Spelled, Spelling.Strange;
    PaddedTrims(before, n.Spelled(), after);
  }

  /** A numeral that is no label, with any white space around it, writes its meaning by the scale. */
  lemma NumberIsWritten(rs: seq<Register>, reg: Register, n: Spelling.Numeral, before: string, after: string,
                        o: Outcome)
    requires Writable(rs, reg) && n.WellFormed() && Blank(before) && Blank(after)
    requires forall c :: !MayMean(reg, n.Spelled(), c)
    ensures
      var scaled := n.Meaning() * Factor(reg.scale) as real;
      MayHappen(rs, reg.mqtt, before + n.Spelled() + after, o) <==>
      o == if 0.0 <= scaled <= 65535.0 then Write(reg.address, scaled.Floor) else Refused(ValueParse)
  {
    NumeralIsWritten(n, reg.scale);
    NumeralTrims(n, before, after);
    hide Blank, MayMean, TrimSpace, ParseWriteValue, Factor;
    hide Spelling.Numeral.WellFormed, Spelling.Numeral.Meaning, Spelling.Numeral.Spelled;
  }
}
