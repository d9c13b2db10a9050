/**
 Switches without a register of their own: on and off are derived from a target register, "off" writes
 0 to it and "on" writes back the last value above zero that a poll has seen there.
 */
module VirtualSwitch {
  import opened Options
  import opened Registers
  import opened Numerals
  import opened Text
  import opened WriteValue
  import Spelling
  import D = Decode
  import L = Loader

  datatype Switch = Switch(key: string, group: string, target: string, onValue: int)

  /** A processed value: a reading of the decoder, or the state of a switch. */
  datatype Shown = Reading(value: D.Value) | Flag(on: bool)

  type Values = map<string, Shown>

  function ToFloat(shown: Shown): Option<real> {
    match shown
    case Reading(Int(i)) => Some(i as real)
    case Reading(Int64(i)) => Some(i as real)
    case Reading(Float(x)) => Some(x)
    case _ => None
  }

  /** The number a poll of the group shows for the target of the switch. */
  function TargetValue(v: Switch, group: string, values: Values): Option<real> {
    if v.group == group && v.target in values then ToFloat(values[v.target]) else None
  }

  function Remember(last: map<string, real>, switches: seq<Switch>, group: string, values: Values): map<string, real> {
    if switches == [] then last
    else
      var v := switches[|switches| - 1];
      var before := Remember(last, switches[..|switches| - 1], group, values);
      match TargetValue(v, group, values)
      case Some(x) => if x > 0.0 then before[v.target := x] else before
      case None => before
  }

  function WithFlags(switches: seq<Switch>, group: string, values: Values): Values {
    if switches == [] then values
    else
      var v := switches[|switches| - 1];
      var before := WithFlags(switches[..|switches| - 1], group, values);
      match TargetValue(v, group, values)
      case Some(x) => before[v.key := Flag(x > 0.0)]
      case None => before
  }

  /** No switch drives another switch, and each has its own key. */
  ghost predicate WellFormed(switches: seq<Switch>) {
    && (forall i, j :: 0 <= i < |switches| && 0 <= j < |switches| ==> switches[i].key != switches[j].target)
    && (forall i, j :: 0 <= i < j < |switches| ==> switches[i].key != switches[j].key)
  }

  /** The poll shows a number above zero for this target. */
  ghost predicate Sees(switches: seq<Switch>, group: string, values: Values, target: string, x: real) {
    exists i :: 0 <= i < |switches| && switches[i].target == target &&
      TargetValue(switches[i], group, values) == Some(x) && x > 0.0
  }

  /** Whatever the order of the switches: a number seen replaces what is remembered, nothing else does. */
  lemma {:induction false} RemembersSeen(last: map<string, real>, switches: seq<Switch>, group: string, values: Values,
                                         target: string, x: real)
    ensures
      var now := Remember(last, switches, group, values);
      target in now && now[target] == x <==>
        || Sees(switches, group, values, target, x)
        || (target in last && last[target] == x && forall y :: !Sees(switches, group, values, target, y))
  {
    if switches != [] {
      var init, v := switches[..|switches| - 1], switches[|switches| - 1];
      RemembersSeen(last, init, group, values, target, x);
      forall y ensures Sees(switches, group, values, target, y) <==>
          Sees(init, group, values, target, y) ||
          (v.target == target && TargetValue(v, group, values) == Some(y) && y > 0.0) {
        SeesStep(switches, group, values, target, y);
      }
      hide Remember, Sees;
      RememberStep(last, switches, group, values);
    }
  }

  lemma RememberStep(last: map<string, real>, switches: seq<Switch>, group: string, values: Values)
    requires switches != []
    ensures
      var v := switches[|switches| - 1];
      var before := Remember(last, switches[..|switches| - 1], group, values);
      Remember(last, switches, group, values) ==
      match TargetValue(v, group, values)
      case Some(x) => if x > 0.0 then before[v.target := x] else before
      case None => before
  {
  }

  lemma SeesStep(switches: seq<Switch>, group: string, values: Values, target: string, x: real)
    requires switches != []
    ensures
      var v := switches[|switches| - 1];
      Sees(switches, group, values, target, x) <==>
      Sees(switches[..|switches| - 1], group, values, target, x) ||
      (v.target == target && TargetValue(v, group, values) == Some(x) && x > 0.0)
  {
    var init := switches[..|switches| - 1];
    if Sees(switches, group, values, target, x) {
      var i :| 0 <= i < |switches| && switches[i].target == target &&
        TargetValue(switches[i], group, values) == Some(x) && x > 0.0;
      if i < |init| {
        assert init[i] == switches[i];
      }
    }
  }

  /** A switch whose target the poll shows gets its state; every other value stays. */
  lemma {:induction false} FlagsAdded(switches: seq<Switch>, group: string, values: Values)
    requires WellFormed(switches)
    ensures
      var out := WithFlags(switches, group, values);
      && (forall i :: 0 <= i < |switches| && TargetValue(switches[i], group, values).Some? ==>
            switches[i].key in out &&
            out[switches[i].key] == Flag(TargetValue(switches[i], group, values).value > 0.0))
      && (forall k :: k in values ==> k in out)
      && (forall k :: k in out ==>
            || (k in values && out[k] == values[k])
            || exists i :: 0 <= i < |switches| && switches[i].key == k && TargetValue(switches[i], group, values).Some?)
  {
    if switches != [] {
      FlagsAdded(switches[..|switches| - 1], group, values);
    }
  }

  lemma {:induction false} TargetsStay(switches: seq<Switch>, n: nat, group: string, values: Values, v: Switch)
    requires WellFormed(switches) && n <= |switches| && v in switches
    ensures TargetValue(v, group, WithFlags(switches[..n], group, values)) == TargetValue(v, group, values)
  {
    if n > 0 {
      assert switches[..n][..n - 1] == switches[..n - 1];
      TargetsStay(switches, n - 1, group, values, v);
      var i :| 0 <= i < |switches| && switches[i] == v;
      assert switches[n - 1].key != switches[i].target;
    }
  }

  /** A poll of another group changes no memory and adds no state. */
  lemma {:induction false} OtherGroupsDoNothing(last: map<string, real>, switches: seq<Switch>, group: string,
                                                values: Values)
    requires forall i :: 0 <= i < |switches| ==> switches[i].group != group || switches[i].target !in values
    ensures Remember(last, switches, group, values) == last
    ensures WithFlags(switches, group, values) == values
  {
    if switches != [] {
      var init := switches[..|switches| - 1];
      assert forall i :: 0 <= i < |init| ==> init[i] == switches[i];
      OtherGroupsDoNothing(last, init, group, values);
    }
  }

  /** The number of a decoded register, times its scale, is the integer of its words; texts and states are none. */
  lemma NumberShown(reg: Register, raw: seq<Word>)
    requires D.Decode(reg, raw).Ok?
    ensures
      var x := ToFloat(Reading(D.Decode(reg, raw).value));
      match D.Decode(reg.(scale := 1), raw)
      case Ok(Int(i)) => x.Some? && x.value * Factor(reg.scale) as real == i as real
      case Ok(Int64(i)) => x.Some? && x.value * Factor(reg.scale) as real == i as real
      case _ => x == None
    ensures forall on :: ToFloat(Flag(on)) == None
  {
    if reg.scale > 1 {
      D.ScalingDivides(reg, raw);
    } else {
      SameUnscaled(reg, raw);
    }
    hide D.Decode;
  }

  lemma SameUnscaled(reg: Register, raw: seq<Word>)
    requires reg.scale <= 1
    ensures D.Decode(reg, raw) == D.Decode(reg.(scale := 1), raw)
    ensures D.Decode(reg, raw).Ok? ==> !D.Decode(reg, raw).value.Float?
  {
    hide D.Str, D.FormatBit, D.FormatDat;
  }

  // ---------------------------------------------------------------------------------------------
  // Commands
  // ---------------------------------------------------------------------------------------------

  /** Texts strconv.ParseFloat reads as an infinity or as no number; neither equals zero. */
  predicate IsSpecial(s: string) {
    Lower(Magnitude(s)) == "inf" || Lower(Magnitude(s)) == "infinity" || Lower(s) == "nan"
  }

  /** Up to here the nearest float64 is zero. */
  function Underflow(): (r: real)
    ensures r > 0.0
  {
    1.0 / Pow2(1075)
  }

  predicate IsZero(x: real) {
    -Underflow() <= x <= Underflow()
  }

  lemma Halves(p: real)
    requires p > 0.0
    ensures 1.0 / (p + p) + 1.0 / (p + p) == 1.0 / p
  {
    var q := 1.0 / (p + p);
    assert q * (p + p) == 1.0;
    assert (q + q) * p == 1.0;
  }

  /** A number is zero to a float64 when it is no nearer to the smallest one above zero, or below it. */
  lemma ZeroIsNearest(x: real)
    ensures
      var smallest := 1.0 / Pow2(1074);
      var size := if x < 0.0 then -x else x;
      IsZero(x) <==> size <= smallest - size
  {
    hide Pow2;
    NextPower(1074);
    Halves(Pow2(1074));
  }

  /** None is a payload that is no switch command. */
  function ParseSwitchPayload(s: string): Option<bool> {
    var text := TrimSpace(s);
    var word := Lower(text);
    if word == "1" || word == "on" || word == "true" then Some(true)
    else if word == "0" || word == "off" || word == "false" || word == "" then Some(false)
    else if IsSpecial(text) then Some(true)
    else
      match ParseFloat(text)
      case Some(x) => Some(!IsZero(x))
      case None => None
  }

  lemma DecimalBegins(body: string)
    requires Decimal(body).Some?
    ensures body != "" && (IsDigit(body[0]) || body[0] == '.')
  {
    var m := body[..Find(body, {'e', 'E'})];
    var point := Find(m, {'.'});
    var digits := m[..point] + if point < |m| then m[point + 1..] else "";
    assert digits != "" && m != "";
    if point > 0 {
      assert digits[0] == body[0] && digits[0] in digits;
    }
  }

  /** Underscores do not come first, so removing them leaves the first characters. */
  lemma UnderscoresLeaveFirst(s: string)
    requires '_' in s ==> UnderscoresOK(s)
    ensures
      var body, t := Magnitude(s), Magnitude(WithoutUnderscores(s));
      t != "" ==> body != "" && body[0] == t[0]
  {
    if '_' in s {
      var body := Magnitude(s);
      assert body != "" ==> body[0] != '_';
      assert WithoutUnderscores(s) == (if Signed(s) then [s[0]] else "") + WithoutUnderscores(body);
    } else {
      NothingRemoved(s);
    }
  }

  /** A numeral begins with a digit or a point, after its sign. */
  lemma NumeralBegins(s: string)
    requires ParseFloat(s).Some?
    ensures Magnitude(s) != "" && (IsDigit(Magnitude(s)[0]) || Magnitude(s)[0] == '.')
  {
    UnderscoresLeaveFirst(s);
    var body := Magnitude(WithoutUnderscores(s));
    if !HasPrefix(body, {'x', 'X'}) {
      DecimalBegins(body);
    }
    hide Decimal, Hexadecimal, UnderscoresOK, WithoutUnderscores, Overflow;
  }

  lemma ZeroAndOneRead()
    ensures ParseFloat("0") == Some(0.0) && ParseFloat("1") == Some(1.0)
  {
    hide ParseFloat, ParseInt;
    ZeroReads();
    OneReads();
    IntegerIsFloat("0");
    IntegerIsFloat("1");
  }

  lemma OneIsNotZero()
    ensures IsZero(0.0) && !IsZero(1.0)
  {
    var n := 1075;
    Pow2Grows(1, n);
    assert Pow2(1) == 2.0;
    hide Pow2;
  }

  lemma LowerBegins(s: string)
    requires s != ""
    ensures |Lower(s)| == |s| && (Lower(s)[0] == s[0] || 'A' <= s[0] <= 'Z')
  {
  }

  lemma WordsAreNoNumerals(s: string)
    requires ParseFloat(s).Some?
    ensures Lower(s) !in {"", "on", "true", "off", "false"} && !IsSpecial(s)
    ensures Lower(s) == "0" ==> s == "0"
    ensures Lower(s) == "1" ==> s == "1"
  {
    NumeralBegins(s);
    LowerBegins(s);
    LowerBegins(Magnitude(s));
    hide ParseFloat, Lower;
  }

  /** A number a float64 can hold is a command whatever its spelling: on unless it is zero there. */
  lemma NumbersAreCommands(s: string)
    ensures
      var x := ParseFloat(TrimSpace(s));
      x.Some? ==> ParseSwitchPayload(s) == Some(!IsZero(x.value))
  {
    hide ParseFloat, TrimSpace, Lower, IsSpecial, IsZero;
    if ParseFloat(TrimSpace(s)).Some? {
      WordsAreNoNumerals(TrimSpace(s));
      ZeroAndOneRead();
      OneIsNotZero();
    }
  }

  /** What strconv.ParseFloat reads without finding a number. */
  const SPECIALS := {"inf", "+inf", "-inf", "infinity", "+infinity", "-infinity", "nan"}

  /** The words that switch on, infinities and NaN, and every number a float64 can tell from zero. */
  ghost predicate TurnsOn(s: string) {
    || Spells(s, "on") || Spells(s, "true")
    || (exists w :: w in SPECIALS && Spells(s, w))
    || (exists x :: Spelling.Denotes(TrimSpace(s), x) && !IsZero(x))
  }

  /** The words that switch off, blank texts, and every spelling of zero. */
  ghost predicate TurnsOff(s: string) {
    || Spells(s, "off") || Spells(s, "false") || Spells(s, "")
    || (exists x :: Spelling.Denotes(TrimSpace(s), x) && IsZero(x))
  }

  lemma LowerSigned(t: string)
    ensures
      Lower(t) ==
      if Signed(t) then [t[0]] + Lower(Magnitude(t)) else Lower(Magnitude(t))
    ensures Lower(t) != "" && !Signed(t) ==> Lower(t)[0] !in {'+', '-'}
  {
  }

  lemma WordWithSign(t: string, word: string)
    requires word != "" && word[0] !in {'+', '-'}
    ensures Lower(Magnitude(t)) == word <==> Lower(t) in {word, "+" + word, "-" + word}
  {
    LowerSigned(t);
    var low := Lower(t);
    hide Lower;
    if Signed(t) {
      assert low[1..] == Lower(Magnitude(t));
      assert ("+" + word)[1..] == word && ("-" + word)[1..] == word;
      assert low == [t[0]] + low[1..];
    }
  }

  lemma SpecialExactly(t: string)
    ensures IsSpecial(t) <==> Lower(t) in SPECIALS
  {
    WordWithSign(t, "inf");
    WordWithSign(t, "infinity");
    assert "+" + "inf" == "+inf" && "-" + "inf" == "-inf";
    assert "+" + "infinity" == "+infinity" && "-" + "infinity" == "-infinity";
    hide Lower;
  }

  lemma PlainWords()
    ensures Plain("1") && Plain("on") && Plain("true") && Plain("0") && Plain("off") && Plain("false") && Plain("")
    ensures forall w :: w in SPECIALS ==> Plain(w)
  {
  }

  lemma OtherWords(word: string)
    requires word in {"0", "off", "false", ""}
    ensures word !in SPECIALS && word !in {"1", "on", "true"}
  {
    assert "off"[0] == 'o' && "off"[1] == 'f' && "on"[1] == 'n' && "false"[0] == 'f' && "true"[0] == 't';
    assert forall w :: w in SPECIALS ==> w[0] in {'i', 'n', '+', '-'};
  }

  /** The words of the switch, without the numbers. */
  lemma WordsExactly(s: string)
    ensures
      var word := Lower(TrimSpace(s));
      && (Spells(s, "on") <==> word == "on") && (Spells(s, "true") <==> word == "true")
      && (Spells(s, "off") <==> word == "off") && (Spells(s, "false") <==> word == "false")
      && (Spells(s, "") <==> word == "")
      && ((exists w :: w in SPECIALS && Spells(s, w)) <==> IsSpecial(TrimSpace(s)))
  {
    PlainWords();
    SpecialExactly(TrimSpace(s));
    forall w: string | Plain(w) ensures Spells(s, w) <==> Lower(TrimSpace(s)) == w {
      SpellsExactly(s, w);
    }
    hide Plain, Spells, Lower, TrimSpace, IsSpecial;
  }

  lemma NumbersExactly(t: string)
    ensures (exists x :: Spelling.Denotes(t, x) && IsZero(x)) <==> ParseFloat(t).Some? && IsZero(ParseFloat(t).value)
    ensures (exists x :: Spelling.Denotes(t, x) && !IsZero(x)) <==> ParseFloat(t).Some? && !IsZero(ParseFloat(t).value)
  {
    hide Spelling.Denotes, IsZero, ParseFloat;
    if ParseFloat(t).Some? {
      Spelling.ReadExactly(t, ParseFloat(t).value);
    }
    forall x | Spelling.Denotes(t, x) ensures ParseFloat(t) == Some(x) {
      Spelling.ReadExactly(t, x);
    }
  }

  /** A payload is a command exactly when it says on or off, and no payload says both. */
  lemma PayloadsExactly(s: string)
    ensures ParseSwitchPayload(s) == Some(true) <==> TurnsOn(s)
    ensures ParseSwitchPayload(s) == Some(false) <==> TurnsOff(s)
  {
    WordsExactly(s);
    NumbersExactly(TrimSpace(s));
    NumbersAreCommands(s);
    LoneDigits(TrimSpace(s));
    SpecialExactly(TrimSpace(s));
    if Lower(TrimSpace(s)) in {"0", "off", "false", ""} {
      OtherWords(Lower(TrimSpace(s)));
    }
    hide Spells, IsSpecial, IsZero, ParseFloat, Spelling.Denotes, Lower, TrimSpace;
  }

  /** The texts "0" and "1" are read as words and as numbers alike. */
  lemma LoneDigits(t: string)
    ensures Lower(t) == "0" ==> ParseFloat(t) == Some(0.0) && IsZero(0.0)
    ensures Lower(t) == "1" ==> ParseFloat(t) == Some(1.0) && !IsZero(1.0)
  {
    ZeroAndOneRead();
    OneIsNotZero();
    if Lower(t) == "0" || Lower(t) == "1" {
      assert t[0] == Lower(t)[0];
      assert t == [t[0]];
    }
    hide ParseFloat, IsZero;
  }

  function ActiveValue(last: map<string, real>, v: Switch): real {
    if v.target in last && last[v.target] > 0.0 then last[v.target] else v.onValue as real
  }

  /**
   What is known of strconv.FormatFloat(x, 'f', -1, 64): a whole number or tenths are printed as they
   are. Nothing is assumed of other numbers, whose shortest text depends on their float64 form.
   */
  ghost predicate Prints(format: real -> string) {
    forall x :: Tenths(x) ==> format(x) == FormatTenths(x)
  }

  /** The text "on" writes to the target register. */
  function TargetText(format: real -> string, last: map<string, real>, v: Switch): string {
    format(ActiveValue(last, v))
  }

  /** An outcome the command can have; TurnsOn and TurnsOff say what the payload asks for. */
  ghost predicate CommandMayHappen(format: real -> string, rs: seq<Register>, last: map<string, real>, v: Switch,
                                   payload: string, o: Outcome) {
    if TurnsOn(payload) then MayHappen(rs, v.target, TargetText(format, last, v), o)
    else if TurnsOff(payload) then MayHappen(rs, v.target, "0", o)
    else o == Refused(ValueParse)
  }

  class Coordinator {
    const switches: seq<Switch>
    const registers: seq<Register>
    const format: real -> string
    var lastActive: map<string, real>

    ghost predicate Valid() {
      WellFormed(switches)
    }

    constructor (registers: seq<Register>, switches: seq<Switch>, format: real -> string)
      requires WellFormed(switches)
      ensures Valid() && lastActive == map[]
      ensures this.registers == registers && this.switches == switches && this.format == format
    {
      this.registers, this.switches, this.format, lastActive := registers, switches, format, map[];
    }

    method ApplyVirtualSwitches(group: string, processed: Values) returns (out: Values)
      requires Valid()
      modifies this`lastActive
      ensures lastActive == Remember(old(lastActive), switches, group, processed)
      ensures out == WithFlags(switches, group, processed)
    {
      out := processed;
      for i := 0 to |switches|
        invariant lastActive == Remember(old(lastActive), switches[..i], group, processed)
        invariant out == WithFlags(switches[..i], group, processed)
      {
        var v := switches[i];
        TargetsStay(switches, i, group, processed, v);
        assert switches[..i + 1][..i] == switches[..i];
        if v.group != group || v.target !in out {
          continue;
        }
        var x := ToFloat(out[v.target]);
        if x == None {
          continue;
        }
        if x.value > 0.0 {
          lastActive := lastActive[v.target := x.value];
        }
        out := out[v.key := Flag(x.value > 0.0)];
      }
      assert switches[..|switches|] == switches;
    }

    method ActiveTargetValue(v: Switch) returns (text: string)
      ensures text == TargetText(format, lastActive, v)
    {
      var last := if v.target in lastActive then lastActive[v.target] else 0.0;
      var val := last;
      if val <= 0.0 {
        val := v.onValue as real;
      }
      text := format(val);
    }

    method HandleVirtualWrite(v: Switch, value: string) returns (o: Outcome)
      ensures CommandMayHappen(format, registers, lastActive, v, value, o)
    {
      PayloadsExactly(value);
      hide ParseSwitchPayload, TurnsOn, TurnsOff;
      var on := ParseSwitchPayload(value);
      if on == None {
        return Refused(ValueParse);
      }
      var target := "0";
      if on.value {
        target := ActiveTargetValue(v);
      }
      o := WriteRegisterByMQTT(registers, v.target, target);
    }
  }

  // ---------------------------------------------------------------------------------------------
  // Off and on again
  // ---------------------------------------------------------------------------------------------

  /** What happens between the start and a command: polls, and commands, which leave the memory alone. */
  datatype Event = Poll(group: string, values: Values) | Command(v: Switch, value: string)

  function After(last: map<string, real>, switches: seq<Switch>, es: seq<Event>): map<string, real> {
    if es == [] then last
    else
      var before := After(last, switches, es[..|es| - 1]);
      match es[|es| - 1]
      case Poll(group, values) => Remember(before, switches, group, values)
      case Command(_, _) => before
  }

  /** The event is a poll that sees a number above zero on the target. */
  ghost predicate Updates(switches: seq<Switch>, e: Event, target: string) {
    e.Poll? && exists x :: Sees(switches, e.group, e.values, target, x)
  }

  /** The memory is the last number above zero seen, whatever else happened since. */
  lemma {:induction false} MemoryIsLastSeen(last: map<string, real>, switches: seq<Switch>, es: seq<Event>, n: nat,
                                            target: string, x: real)
    requires n < |es| && es[n].Poll? && Sees(switches, es[n].group, es[n].values, target, x)
    requires forall k :: n < k < |es| ==> !Updates(switches, es[k], target)
    ensures target in After(last, switches, es) && After(last, switches, es)[target] == x
    decreases |es|
  {
    var init, e := es[..|es| - 1], es[|es| - 1];
    if n < |init| {
      MemoryIsLastSeen(last, switches, init, n, target, x);
      if e.Poll? {
        RemembersSeen(After(last, switches, init), switches, e.group, e.values, target, x);
        assert !Updates(switches, e, target);
      }
    } else {
      RemembersSeen(After(last, switches, init), switches, e.group, e.values, target, x);
    }
  }

  /** A plain number register of one unsigned word, whole or in tenths. */
  predicate IsLimit(reg: Register) {
    && reg.writable && reg.IsModbus() && reg.Items() == map[] && reg.itemsDE == map[]
    && reg.typ == U16 && reg.length <= 1 && (reg.scale <= 1 || reg.scale == 10)
  }

  lemma FormatIsTrimmed(x: real)
    requires Tenths(x)
    ensures TrimSpace(FormatTenths(x)) == FormatTenths(x)
  {
    FormatEnds(x);
    hide FormatTenths;
    AlreadyTrimmed(FormatTenths(x));
  }

  lemma LimitTakesNumbers(rs: seq<Register>, reg: Register, text: string, o: Outcome)
    requires L.FindByMqtt(rs, reg.mqtt) == Some(reg) && IsLimit(reg) && TrimSpace(text) == text
    ensures MayHappen(rs, reg.mqtt, text, o) <==> o == WriteNumber(reg, text)
  {
    forall c ensures !MayMean(reg, text, c) {
      assert !Labelled(reg.Items(), text, c) && !Labelled(reg.itemsDE, text, c);
    }
  }

  /** The number a limit register shows for a word. */
  function Shows(reg: Register, w: Word): real {
    if reg.scale <= 1 then w as real else w as real / reg.scale as real
  }

  lemma LimitDecodes(reg: Register, w: Word)
    requires IsLimit(reg)
    ensures var r := D.Decode(reg, [w]); r.Ok? && ToFloat(Reading(r.value)) == Some(Shows(reg, w))
  {
    assert D.Decode(reg, [w]) == D.Ok(D.Scaled(D.Int(w), reg.scale));
  }

  lemma LimitIsTenths(reg: Register, w: Word)
    requires IsLimit(reg)
    ensures Tenths(Shows(reg, w)) && Shows(reg, w) * Factor(reg.scale) as real == w as real
  {
    var x, k := Shows(reg, w), Factor(reg.scale);
    if reg.scale <= 1 {
      TenthsOfWhole(w);
      assert x == w as real && k == 1;
      assert x * 1.0 == x;
    } else {
      assert x == w as real / 10.0 && k == 10;
      assert x * 10.0 == w as real;
    }
  }

  /** A number that is too large for a float64 is out of a register's range, too. */
  lemma OverflowIsOutOfRange(x: real, k: int)
    requires k >= 1 && !(-Overflow() < x < Overflow())
    ensures !(0.0 <= x * k as real <= 65535.0)
  {
    OverflowIsLarge();
    hide Overflow;
    if x > 0.0 {
      assert x * k as real >= x;
    } else {
      assert x * k as real < 0.0;
    }
  }

  /** What becomes of a printed number that is read as a command. */
  lemma PrintedIsWritten(x: real, scale: int)
    requires Tenths(x)
    ensures
      var scaled := x * Factor(scale) as real;
      ParseWriteValue(FormatTenths(x), scale) == if 0.0 <= scaled <= 65535.0 then Ok(scaled.Floor) else Err(ValueParse)
  {
    hide ParseWriteValue, ParseFloat, FormatTenths, Tenths, Factor, Overflow;
    var text := FormatTenths(x);
    FormatReads(x);
    AcceptsRead(text, scale);
    if -Overflow() < x < Overflow() {
      assert ParseFloat(text) == Some(x);
    } else {
      assert ParseFloat(text) == None;
      OverflowIsOutOfRange(x, Factor(scale));
    }
  }

  /** Decoding a word, printing the number, and reading the text back as a command gives the word. */
  lemma WordRoundTrip(reg: Register, w: Word)
    requires IsLimit(reg)
    ensures
      && D.Decode(reg, [w]).Ok? && ToFloat(Reading(D.Decode(reg, [w]).value)) == Some(Shows(reg, w))
      && Tenths(Shows(reg, w)) && ParseWriteValue(FormatTenths(Shows(reg, w)), reg.scale) == Ok(w)
  {
    hide ParseWriteValue, ParseFloat, FormatTenths, Tenths, Shows, Factor, D.Decode, IsLimit;
    LimitDecodes(reg, w);
    LimitIsTenths(reg, w);
    PrintedIsWritten(Shows(reg, w), reg.scale);
    assert (w as real).Floor == w;
  }

  lemma SeenAndKept(reg: Register, switches: seq<Switch>, v: Switch, last: map<string, real>, es: seq<Event>,
                    n: nat, w: Word)
    requires IsLimit(reg) && v in switches && w > 0
    requires n < |es| && es[n].Poll? && es[n].group == v.group
    requires v.target in es[n].values && es[n].values[v.target] == Reading(D.Decode(reg, [w]).value)
    requires forall k :: n < k < |es| ==> !Updates(switches, es[k], v.target)
    ensures v.target in After(last, switches, es) && After(last, switches, es)[v.target] == Shows(reg, w) > 0.0
  {
    LimitDecodes(reg, w);
    hide D.Decode;
    var i :| 0 <= i < |switches| && switches[i] == v;
    assert TargetValue(switches[i], es[n].group, es[n].values) == Some(Shows(reg, w));
    assert Sees(switches, es[n].group, es[n].values, v.target, Shows(reg, w));
    MemoryIsLastSeen(last, switches, es, n, v.target, Shows(reg, w));
  }

  /**
   A limit a poll has seen is written back exactly by the next "on", after any commands, any polls that
   show zero or nothing for it, and whatever was remembered before.
   */
  lemma NextOnRestores(format: real -> string, rs: seq<Register>, reg: Register, switches: seq<Switch>, v: Switch,
                       last: map<string, real>, es: seq<Event>, n: nat, w: Word, payload: string, o: Outcome)
    requires Prints(format) && TurnsOn(payload)
    requires L.FindByMqtt(rs, reg.mqtt) == Some(reg) && IsLimit(reg)
    requires v in switches && v.target == reg.mqtt && w > 0
    requires n < |es| && es[n].Poll? && es[n].group == v.group
    requires v.target in es[n].values && es[n].values[v.target] == Reading(D.Decode(reg, [w]).value)
    requires forall k :: n < k < |es| ==> !Updates(switches, es[k], v.target)
    ensures CommandMayHappen(format, rs, After(last, switches, es), v, payload, o) <==> o == Write(reg.address, w)
  {
    SeenAndKept(reg, switches, v, last, es, n, w);
    WordRoundTrip(reg, w);
    FormatIsTrimmed(Shows(reg, w));
    hide D.Decode, After, Updates, Shows, Factor, ParseWriteValue, FormatTenths, MayHappen, Tenths, TurnsOn;
    LimitTakesNumbers(rs, reg, FormatTenths(Shows(reg, w)), o);
  }

  /** "Off" writes 0, whatever is remembered. */
  lemma OffWritesZero(format: real -> string, rs: seq<Register>, reg: Register, v: Switch, last: map<string, real>,
                      payload: string, o: Outcome)
    requires TurnsOff(payload)
    requires L.FindByMqtt(rs, reg.mqtt) == Some(reg) && IsLimit(reg) && v.target == reg.mqtt
    ensures CommandMayHappen(format, rs, last, v, payload, o) <==> o == Write(reg.address, 0)
  {
    PayloadsExactly(payload);
    hide ParseSwitchPayload, TurnsOn, TurnsOff;
    ZeroReads();
    AlreadyTrimmed("0");
    Quotient(0, Factor(reg.scale));
    hide ParseInt, ParseFloat, MayHappen;
    assert ParseWriteValue("0", reg.scale) == Ok(0);
    LimitTakesNumbers(rs, reg, "0", o);
  }

  lemma WholeIsScaled(reg: Register, i: int)
    requires IsLimit(reg) && Tenths(i as real)
    ensures
      var scaled := i * Factor(reg.scale);
      WriteNumber(reg, FormatTenths(i as real)) ==
      if 0 <= scaled <= 0xFFFF then Write(reg.address, scaled) else Refused(ValueParse)
  {
    hide FormatTenths, Tenths, ParseWriteValue, ParseFloat, IsLimit, Factor;
    PrintedIsWritten(i as real, reg.scale);
    RealProduct(i, Factor(reg.scale));
  }

  /** With nothing remembered, "on" writes the configured number, if the register can hold it. */
  lemma NothingSeenWritesConfigured(format: real -> string, rs: seq<Register>, reg: Register, v: Switch,
                                    last: map<string, real>, payload: string, o: Outcome)
    requires TurnsOn(payload)
    requires L.FindByMqtt(rs, reg.mqtt) == Some(reg) && IsLimit(reg) && v.target == reg.mqtt
    requires Prints(format) && v.target !in last
    ensures
      var scaled := v.onValue * Factor(reg.scale);
      CommandMayHappen(format, rs, last, v, payload, o) <==>
      o == if 0 <= scaled <= 0xFFFF then Write(reg.address, scaled) else Refused(ValueParse)
  {
    hide FormatTenths, MayHappen, Tenths, ParseWriteValue, Factor, WriteNumber, TurnsOn;
    TenthsOfWhole(v.onValue);
    FormatIsTrimmed(v.onValue as real);
    WholeIsScaled(reg, v.onValue);
    LimitTakesNumbers(rs, reg, FormatTenths(v.onValue as real), o);
  }
}
