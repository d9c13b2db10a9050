/**
 The rules of the catalogue in terms of the file: which entries are kept and as what, and why each of
 the others is not.
 */
module LoaderRules {
  import opened Options
  import opened Registers
  import opened Loader
  import opened Numerals

  // ---------------------------------------------------------------------------------------------
  // The rules
  // ---------------------------------------------------------------------------------------------

  /** The address a numeric key spells; other keys are pseudo-registers. */
  ghost predicate Spells(key: string, a: int) {
    AllDigits(key) && DigitsValue(key) == a
  }

  ghost predicate LengthFits(typ: DataType, length: int) {
    match typ
    case U32 => length >= 2
    case S32 => length >= 2
    case I32 => length >= 2
    case DAT => length >= 3
    case BYTE => length in {1, 2, 4}
    case BIT => 1 <= length <= 4
    case Unknown(_) => false
    case _ => length >= 1
  }

  /** The register an entry stands for: as the file has it, with defaults for what it leaves out. */
  ghost predicate AsWritten(e: Entry, r: Register) {
    && r.key == e.key && r.name == e.reg.name && r.unit == e.reg.unit && r.precision == e.reg.precision
    && r.mqtt == e.reg.mqtt && r.group == e.reg.group && r.writable == e.reg.writable
    && r.items == e.reg.items && r.itemsDE == e.reg.itemsDE
    && r.length == (if e.hasLength || e.reg.length != 0 then e.reg.length else 1)
    && r.scale == (if e.hasScale || e.reg.scale != 0 then e.reg.scale else 1)
    && r.typ == (if e.reg.typ == Empty then U16 else e.reg.typ)
    && (if AllDigits(e.key) then Spells(e.key, r.address) else r.address == 0)
  }

  /** The values of the entry are in range. */
  ghost predicate InRange(e: Entry) {
    var length := if e.hasLength || e.reg.length != 0 then e.reg.length else 1;
    && LengthFits(e.reg.typ, length)
    && (AllDigits(e.key) ==> length <= 125 && DigitsValue(e.key) + length <= 65536)
    && (e.reg.scale >= 1 || (e.reg.scale == 0 && !e.hasScale))
    && (e.reg.precision.Some? ==> 0 <= e.reg.precision.value <= 10)
  }

  /** Nothing is wrong with the entry itself. */
  ghost predicate Sound(e: Entry) {
    && e.decodes && e.reg.name != ""
    && (AllDigits(e.key) ==> DigitsValue(e.key) <= 65535)
    && InRange(e)
  }

  ghost predicate Wild(s: string) {
    '+' in s || '#' in s || '\0' in s
  }

  /** The last part of the entry's topics; a register outside the groups needs no name there. */
  ghost predicate UnsafeTopicIn(e: Entry) {
    if e.reg.mqtt != "" then Wild(e.reg.mqtt) else e.reg.group != "" && Wild(e.reg.name)
  }

  /** An earlier sound entry spells the same address, whether it was kept or not. */
  ghost predicate AddressTaken(es: seq<Entry>, i: nat)
    requires i < |es|
  {
    exists j :: 0 <= j < i && Sound(es[j]) && AllDigits(es[j].key) && Spells(es[i].key, DigitsValue(es[j].key))
  }

  /** Loading entry i adds a register. */
  ghost predicate Kept(es: seq<Entry>, i: nat) {
    && i < |es| && LoadAll(es[..i]).Loaded? && LoadAll(es[..i + 1]).Loaded?
    && |LoadAll(es[..i + 1]).catalogue.all| > |LoadAll(es[..i]).catalogue.all|
  }

  /** One of the first i entries was kept under the key. */
  ghost predicate KeyTaken(es: seq<Entry>, i: nat, key: string)
    requires i <= |es|
  {
    exists j :: 0 <= j < i && Kept(es, j) && es[j].key == key
  }

  /** One of the first i entries was kept with the MQTT suffix. */
  ghost predicate SuffixTaken(es: seq<Entry>, i: nat, mqtt: string)
    requires i <= |es|
  {
    exists j :: 0 <= j < i && Kept(es, j) && es[j].reg.mqtt == mqtt
  }

  // ---------------------------------------------------------------------------------------------
  // The loader follows them
  // ---------------------------------------------------------------------------------------------

  lemma NormalisedAsWritten(e: Entry)
    requires AllDigits(e.key) ==> DigitsValue(e.key) <= 65535
    ensures AsWritten(e, Normalised(e))
  {
    hide DigitsValue, AllDigits;
  }

  lemma ValidInRange(e: Entry)
    requires AllDigits(e.key) ==> DigitsValue(e.key) <= 65535
    ensures Valid(Normalised(e)) <==> InRange(e)
    ensures Numeric(Normalised(e)) <==> AllDigits(e.key)
  {
    hide DigitsValue, AllDigits;
  }

  lemma SoundNames(e: Entry, a: int)
    ensures Names(e, a) <==> Sound(e) && Spells(e.key, a)
  {
    hide DigitsValue, Valid, InRange;
    if AllDigits(e.key) && DigitsValue(e.key) <= 65535 {
      ValidInRange(e);
    }
  }

  lemma PrefixLoads(es: seq<Entry>, i: nat)
    requires i <= |es| && LoadAll(es).Loaded?
    ensures LoadAll(es[..i]).Loaded?
  {
    if LoadAll(es[..i]).RenamedGroup? {
      RefusalStays(es, i);
    }
  }

  lemma LastIsLoad(es: seq<Entry>)
    requires es != [] && LoadAll(es).Loaded?
    ensures LoadAll(es[..|es| - 1]).Loaded?
    ensures LoadAll(es) == Load(LoadAll(es[..|es| - 1]).catalogue, es[|es| - 1])
  {
    hide Load;
  }

  lemma StepIsLoad(es: seq<Entry>, i: nat)
    requires i < |es| && LoadAll(es).Loaded?
    ensures LoadAll(es[..i]).Loaded? && LoadAll(es[..i + 1]).Loaded?
    ensures LoadAll(es[..i + 1]) == Load(LoadAll(es[..i]).catalogue, es[i])
  {
    hide LoadAll, Load;
    PrefixLoads(es, i + 1);
    LastIsLoad(es[..i + 1]);
    assert es[..i + 1][..i] == es[..i];
  }

  /** No check stops the entry. */
  predicate Passes(m: Catalogue, e: Entry) {
    EarlySkip(m, e).None? && LateSkip(m, Normalised(e)).None?
  }

  /** What one entry does to the registers and to what is claimed. */
  lemma LoadGrows(m: Catalogue, e: Entry)
    requires Load(m, e).Loaded?
    ensures
      var n, r := Load(m, e).catalogue, Normalised(e);
      && n.all == (if Passes(m, e) then m.all + [r] else m.all)
      && n.byKey.Keys == m.byKey.Keys + (if Passes(m, e) then {e.key} else {})
      && n.seenMqtt.Keys == m.seenMqtt.Keys + (if Passes(m, e) && e.reg.mqtt != "" then {e.reg.mqtt} else {})
  {
    LoadWithoutNotes(m, e);
    hide Load, EarlySkip, LateSkip, ParseAddress;
  }

  lemma KeptPasses(es: seq<Entry>, i: nat)
    requires i < |es| && LoadAll(es).Loaded?
    ensures LoadAll(es[..i]).Loaded? && (Kept(es, i) <==> Passes(LoadAll(es[..i]).catalogue, es[i]))
  {
    StepIsLoad(es, i);
    LoadGrows(LoadAll(es[..i]).catalogue, es[i]);
    hide LoadAll, Load, Passes, Normalised;
  }

  lemma NothingLoads(es: seq<Entry>)
    ensures LoadAll(es[..0]) == Loaded(EMPTY)
  {
    assert es[..0] == [];
    hide Load;
  }

  lemma {:induction false} KeysBefore(es: seq<Entry>, i: nat, k: string)
    requires i <= |es| && LoadAll(es).Loaded?
    ensures LoadAll(es[..i]).Loaded? && (k in LoadAll(es[..i]).catalogue.byKey <==> KeyTaken(es, i, k))
  {
    hide LoadAll, Load, Kept, Passes, Normalised;
    if i == 0 {
      NothingLoads(es);
    } else {
      KeysBefore(es, i - 1, k);
      StepIsLoad(es, i - 1);
      var m := LoadAll(es[..i - 1]).catalogue;
      LoadGrows(m, es[i - 1]);
      KeptPasses(es, i - 1);
      assert KeyTaken(es, i, k) <==> KeyTaken(es, i - 1, k) || (Kept(es, i - 1) && es[i - 1].key == k);
      hide KeyTaken;
    }
  }

  lemma {:induction false} SuffixesBefore(es: seq<Entry>, i: nat, x: string)
    requires i <= |es| && LoadAll(es).Loaded? && x != ""
    ensures LoadAll(es[..i]).Loaded? && (x in LoadAll(es[..i]).catalogue.seenMqtt <==> SuffixTaken(es, i, x))
  {
    hide LoadAll, Load, Kept, Passes, Normalised;
    if i == 0 {
      NothingLoads(es);
    } else {
      SuffixesBefore(es, i - 1, x);
      StepIsLoad(es, i - 1);
      var m := LoadAll(es[..i - 1]).catalogue;
      LoadGrows(m, es[i - 1]);
      KeptPasses(es, i - 1);
      assert SuffixTaken(es, i, x) <==> SuffixTaken(es, i - 1, x) || (Kept(es, i - 1) && es[i - 1].reg.mqtt == x);
      hide SuffixTaken;
    }
  }

  lemma ClaimedBefore(es: seq<Entry>, i: nat, a: int)
    requires i <= |es| && LoadAll(es).Loaded?
    ensures LoadAll(es[..i]).Loaded?
    ensures a in LoadAll(es[..i]).catalogue.seenAddr <==> exists j :: 0 <= j < i && Names(es[j], a)
  {
    PrefixLoads(es, i);
    var init := es[..i];
    if j :| 0 <= j < i && Names(es[j], a) {
      var first := FirstNaming(init, a, j);
      AddressGoesToFirstClaimant(init, a, first);
    } else {
      UnnamedIsFree(init, a);
    }
  }

  lemma {:induction false} FirstNaming(es: seq<Entry>, a: int, j: nat) returns (first: nat)
    requires j < |es| && Names(es[j], a)
    ensures FirstToName(es, a, first)
  {
    hide Names;
    if k :| 0 <= k < j && Names(es[k], a) {
      first := FirstNaming(es, a, k);
    } else {
      first := j;
    }
  }

  lemma WildExactly(s: string)
    ensures Contains(s, MQTT_WILDCARDS) <==> Wild(s)
  {
  }

  lemma PassesExactly(m: Catalogue, e: Entry)
    ensures
      EarlySkip(m, e).None? <==>
      Sound(e) && e.key !in m.byKey && (AllDigits(e.key) ==> DigitsValue(e.key) !in m.seenAddr)
    ensures
      LateSkip(m, Normalised(e)).None? <==>
      !UnsafeTopicIn(e) && !Wild(e.reg.group) && (e.reg.mqtt != "" ==> e.reg.mqtt !in m.seenMqtt)
  {
    var r := Normalised(e);
    WildExactly(TopicKey(r));
    WildExactly(e.reg.group);
    hide Contains, Wild, DigitsValue, Valid, InRange;
    if AllDigits(e.key) ==> DigitsValue(e.key) <= 65535 {
      ValidInRange(e);
      NormalisedAsWritten(e);
    }
  }

  lemma TakenExactly(es: seq<Entry>, i: nat)
    requires i < |es| && LoadAll(es).Loaded?
    ensures LoadAll(es[..i]).Loaded?
    ensures
      AddressTaken(es, i) <==>
      AllDigits(es[i].key) && DigitsValue(es[i].key) in LoadAll(es[..i]).catalogue.seenAddr
  {
    hide LoadAll, Sound, DigitsValue;
    PrefixLoads(es, i);
    if AllDigits(es[i].key) {
      var a := DigitsValue(es[i].key);
      ClaimedBefore(es, i, a);
      forall j | 0 <= j < i ensures Names(es[j], a) <==> Sound(es[j]) && Spells(es[j].key, a) {
        SoundNames(es[j], a);
      }
      hide Names;
    }
  }

  /**
   Of a file that loads, an entry is kept exactly when nothing is wrong with it, no kept entry before it
   has its key or its MQTT suffix, no sound entry before it spells its address, and its topics are safe.
   */
  lemma KeptExactly(es: seq<Entry>, i: nat)
    requires i < |es| && LoadAll(es).Loaded?
    ensures
      var e := es[i];
      Kept(es, i) <==>
      && Sound(e) && !KeyTaken(es, i, e.key) && !AddressTaken(es, i)
      && !UnsafeTopicIn(e) && !Wild(e.reg.group)
      && (e.reg.mqtt != "" ==> !SuffixTaken(es, i, e.reg.mqtt))
  {
    hide LoadAll, Kept, Sound, KeyTaken, AddressTaken, SuffixTaken, UnsafeTopicIn, Wild, DigitsValue, AllDigits;
    hide EarlySkip, LateSkip, Normalised;
    KeptPasses(es, i);
    PassesExactly(LoadAll(es[..i]).catalogue, es[i]);
    KeysBefore(es, i, es[i].key);
    TakenExactly(es, i);
    if es[i].reg.mqtt != "" {
      SuffixesBefore(es, i, es[i].reg.mqtt);
    }
  }

  // ---------------------------------------------------------------------------------------------
  // Every entry is kept or explained
  // ---------------------------------------------------------------------------------------------

  /** The diagnostics that report a skipped entry; the others keep theirs. */
  function Reasons(ds: seq<Diagnostic>): seq<Diagnostic> {
    if ds == [] then []
    else
      var last := ds[|ds| - 1];
      Reasons(ds[..|ds| - 1]) + if last.UnknownField? || last.SlashInTopic? then [] else [last]
  }

  /** The reason holds of entry i, and where it names another entry, that one is the first in the way. */
  ghost predicate Explains(es: seq<Entry>, i: nat, d: Diagnostic)
    requires i < |es|
  {
    var e := es[i];
    d.key == e.key &&
    match d
    case DuplicateKey(_) => KeyTaken(es, i, e.key)
    case DecodeError(_) => !e.decodes
    case MissingName(_) => e.reg.name == ""
    case KeyOutOfRange(_) => AllDigits(e.key) && DigitsValue(e.key) > 65535
    case InvalidEntry(_) => !InRange(e)
    case DuplicateAddress(_, first) =>
      exists j :: 0 <= j < i && es[j].key == first && AllDigits(first) && Spells(e.key, DigitsValue(first))
        && FirstToName(es, DigitsValue(first), j)
    case UnsafeTopic(_) => UnsafeTopicIn(e)
    case UnsafeGroup(_) => Wild(e.reg.group)
    case DuplicateMqtt(_, first) =>
      exists j :: 0 <= j < i && Kept(es, j) && es[j].reg.mqtt == e.reg.mqtt && es[j].key == first
    case _ => false
  }

  lemma ReasonsJoin(ds: seq<Diagnostic>, d: Diagnostic)
    ensures Reasons(ds + [d]) == Reasons(ds) + if d.UnknownField? || d.SlashInTopic? then [] else [d]
  {
    assert (ds + [d])[..|ds|] == ds;
  }

  lemma {:induction false} UnknownIsNoReason(m: Catalogue, key: string, fields: seq<string>)
    ensures Reasons(NoteUnknown(m, key, fields).diagnostics) == Reasons(m.diagnostics)
  {
    if fields != [] {
      var init, last := fields[..|fields| - 1], fields[|fields| - 1];
      UnknownIsNoReason(m, key, init);
      ReasonsJoin(NoteUnknown(m, key, init).diagnostics, UnknownField(key, last));
    }
  }

  /** Why the entry is skipped. */
  function SkipReason(m: Catalogue, e: Entry): Diagnostic
    requires !Passes(m, e)
  {
    if EarlySkip(m, e).Some? then EarlySkip(m, e).value else LateSkip(m, Normalised(e)).value
  }

  lemma NoReasonYet(m: Catalogue, e: Entry)
    ensures Reasons(WithUnknown(m, e).diagnostics) == Reasons(m.diagnostics)
    ensures Reasons(Claim(WithUnknown(m, e), Normalised(e)).diagnostics) == Reasons(m.diagnostics)
    ensures
      Reasons(WithSlash(Claim(WithUnknown(m, e), Normalised(e)), Normalised(e)).diagnostics) == Reasons(m.diagnostics)
  {
    hide Contains, Normalised, Reasons, Numeric;
    var noted, r := WithUnknown(m, e), Normalised(e);
    UnknownIsNoReason(m, e.key, e.unknown);
    ReasonsJoin(noted.diagnostics, SlashInTopic(r.key));
  }

  lemma NotesOfLoad(m: Catalogue, e: Entry)
    requires Load(m, e).Loaded?
    ensures
      var noted := WithUnknown(m, e);
      var slashed := WithSlash(Claim(noted, Normalised(e)), Normalised(e));
      Load(m, e).catalogue.diagnostics ==
      if EarlySkip(m, e).Some? then noted.diagnostics + [EarlySkip(m, e).value]
      else if LateSkip(m, Normalised(e)).Some? then slashed.diagnostics + [LateSkip(m, Normalised(e)).value]
      else slashed.diagnostics
  {
    hide EarlySkip, LateSkip, WithUnknown, WithSlash, Claim, Normalised;
  }

  lemma SkipsAreReasons(m: Catalogue, e: Entry, r: Register)
    ensures EarlySkip(m, e).Some? ==> !EarlySkip(m, e).value.UnknownField? && !EarlySkip(m, e).value.SlashInTopic?
    ensures LateSkip(m, r).Some? ==> !LateSkip(m, r).value.UnknownField? && !LateSkip(m, r).value.SlashInTopic?
  {
    hide Normalised, Valid, ParseAddress, Contains;
  }

  lemma OneReason(m: Catalogue, e: Entry)
    requires Load(m, e).Loaded?
    ensures
      Reasons(Load(m, e).catalogue.diagnostics) ==
      Reasons(m.diagnostics) + if Passes(m, e) then [] else [SkipReason(m, e)]
  {
    hide Load, EarlySkip, LateSkip, WithUnknown, WithSlash, Claim, Normalised, Reasons;
    NotesOfLoad(m, e);
    NoReasonYet(m, e);
    var r := Normalised(e);
    SkipsAreReasons(m, e, r);
    if EarlySkip(m, e).Some? {
      ReasonsJoin(WithUnknown(m, e).diagnostics, EarlySkip(m, e).value);
    } else if LateSkip(m, r).Some? {
      ReasonsJoin(WithSlash(Claim(WithUnknown(m, e), r), r).diagnostics, LateSkip(m, r).value);
    }
  }

  lemma SuffixHolder(es: seq<Entry>, i: nat, x: string) returns (j: nat)
    requires i <= |es| && LoadAll(es).Loaded? && x != "" && SuffixTaken(es, i, x)
    ensures j < i && Kept(es, j) && es[j].reg.mqtt == x
    ensures LoadAll(es[..i]).Loaded? && x in LoadAll(es[..i]).catalogue.seenMqtt
    ensures LoadAll(es[..i]).catalogue.seenMqtt[x] == es[j].key
  {
    hide LoadAll, Load, Kept, Passes, Normalised;
    SuffixesBefore(es, i, x);
    assert i > 0;
    StepIsLoad(es, i - 1);
    var m := LoadAll(es[..i - 1]).catalogue;
    SuffixesBefore(es, i - 1, x);
    LoadGrows(m, es[i - 1]);
    KeptPasses(es, i - 1);
    SuffixStays(m, es[i - 1], x);
    if SuffixTaken(es, i - 1, x) {
      j := SuffixHolder(es, i - 1, x);
    } else {
      j := i - 1;
    }
  }

  /** A suffix stays with its holder, and a new one goes to the entry that is kept. */
  lemma SuffixStays(m: Catalogue, e: Entry, x: string)
    requires Load(m, e).Loaded? && x in Load(m, e).catalogue.seenMqtt
    ensures
      Load(m, e).catalogue.seenMqtt[x] ==
      if x in m.seenMqtt then m.seenMqtt[x] else e.key
  {
    LoadWithoutNotes(m, e);
    hide Load, EarlySkip, ParseAddress, Contains;
  }

  /** Why an entry is stopped, in terms of what was loaded before it. */
  lemma StopsWith(m: Catalogue, e: Entry)
    requires !Passes(m, e)
    ensures
      var d := SkipReason(m, e);
      d.key == e.key &&
      match d
      case DuplicateKey(_) => e.key in m.byKey
      case DecodeError(_) => !e.decodes
      case MissingName(_) => e.reg.name == ""
      case KeyOutOfRange(_) => AllDigits(e.key) && DigitsValue(e.key) > 65535
      case InvalidEntry(_) => !InRange(e)
      case DuplicateAddress(_, first) =>
        AllDigits(e.key) && DigitsValue(e.key) in m.seenAddr && m.seenAddr[DigitsValue(e.key)] == first
      case UnsafeTopic(_) => UnsafeTopicIn(e)
      case UnsafeGroup(_) => Wild(e.reg.group)
      case DuplicateMqtt(_, first) => e.reg.mqtt != "" && e.reg.mqtt in m.seenMqtt && m.seenMqtt[e.reg.mqtt] == first
      case _ => false
  {
    var r := Normalised(e);
    WildExactly(TopicKey(r));
    WildExactly(e.reg.group);
    assert !Wild("");
    hide Contains, Wild, DigitsValue, Valid, InRange;
    if AllDigits(e.key) ==> DigitsValue(e.key) <= 65535 {
      ValidInRange(e);
      NormalisedAsWritten(e);
    }
  }

  lemma AddressHolder(es: seq<Entry>, i: nat, a: int) returns (j: nat)
    requires i <= |es| && LoadAll(es).Loaded?
    requires LoadAll(es[..i]).Loaded? && a in LoadAll(es[..i]).catalogue.seenAddr
    ensures j < i && FirstToName(es, a, j) && Spells(es[j].key, a)
    ensures LoadAll(es[..i]).catalogue.seenAddr[a] == es[j].key
  {
    hide LoadAll, Names;
    ClaimedBefore(es, i, a);
    var k :| 0 <= k < i && Names(es[k], a);
    j := FirstNaming(es[..i], a, k);
    assert forall n :: 0 <= n < i ==> es[..i][n] == es[n];
    AddressGoesToFirstClaimant(es[..i], a, j);
    SoundNames(es[j], a);
  }

  lemma ReasonHolds(es: seq<Entry>, i: nat)
    requires i < |es| && LoadAll(es).Loaded? && !Kept(es, i)
    ensures LoadAll(es[..i]).Loaded? && !Passes(LoadAll(es[..i]).catalogue, es[i])
    ensures Explains(es, i, SkipReason(LoadAll(es[..i]).catalogue, es[i]))
  {
    hide LoadAll, Kept, Passes, SkipReason, InRange, UnsafeTopicIn, Wild, DigitsValue, KeyTaken;
    KeptPasses(es, i);
    var m, e := LoadAll(es[..i]).catalogue, es[i];
    StopsWith(m, e);
    var d := SkipReason(m, e);
    if d.DuplicateKey? {
      KeysBefore(es, i, e.key);
    } else if d.DuplicateAddress? {
      var j := AddressHolder(es, i, DigitsValue(e.key));
    } else if d.DuplicateMqtt? {
      SuffixesBefore(es, i, e.reg.mqtt);
      var j := SuffixHolder(es, i, e.reg.mqtt);
    }
  }

  ghost predicate Ascends(at: seq<nat>, n: nat) {
    (forall k :: 0 <= k < |at| ==> at[k] < n) && forall k, l :: 0 <= k < l < |at| ==> at[k] < at[l]
  }

  /**
   The catalogue of a file that loads is its kept entries, as written and in the file's order; every other
   entry is reported once, in the file's order, with a reason that holds.
   */
  lemma {:induction false} EveryEntryIsAccountedFor(es: seq<Entry>, n: nat) returns (kept: seq<nat>, skipped: seq<nat>)
    requires n <= |es| && LoadAll(es).Loaded?
    ensures LoadAll(es[..n]).Loaded?
    ensures Ascends(kept, n) && Ascends(skipped, n) && |kept| + |skipped| == n
    ensures
      var all := LoadAll(es[..n]).catalogue.all;
      |all| == |kept| && forall k :: 0 <= k < |kept| ==> Kept(es, kept[k]) && AsWritten(es[kept[k]], all[k])
    ensures
      var reasons := Reasons(LoadAll(es[..n]).catalogue.diagnostics);
      |reasons| == |skipped| &&
      forall k :: 0 <= k < |skipped| ==> !Kept(es, skipped[k]) && Explains(es, skipped[k], reasons[k])
  {
    hide LoadAll, Load, Kept, Passes, SkipReason, Explains, AsWritten, Reasons;
    if n == 0 {
      kept, skipped := [], [];
      NothingLoads(es);
      NoReasons();
    } else {
      var i := n - 1;
      kept, skipped := EveryEntryIsAccountedFor(es, i);
      StepIsLoad(es, i);
      var m := LoadAll(es[..i]).catalogue;
      LoadGrows(m, es[i]);
      OneReason(m, es[i]);
      KeptPasses(es, i);
      if Kept(es, i) {
        KeptIsWritten(es, i);
        kept := kept + [i];
      } else {
        ReasonHolds(es, i);
        skipped := skipped + [i];
      }
    }
  }

  lemma NoReasons()
    ensures Reasons([]) == []
  {
  }

  lemma KeptIsWritten(es: seq<Entry>, i: nat)
    requires i < |es| && LoadAll(es).Loaded? && Kept(es, i)
    ensures AsWritten(es[i], Normalised(es[i]))
  {
    hide LoadAll, Kept, KeyTaken, SuffixTaken, AddressTaken;
    KeptExactly(es, i);
    NormalisedAsWritten(es[i]);
  }

  // ---------------------------------------------------------------------------------------------
  // What is noted about entries that are used
  // ---------------------------------------------------------------------------------------------

  predicate IsNote(d: Diagnostic) { d.UnknownField? || d.SlashInTopic? }

  ghost predicate Slashed(e: Entry) {
    '/' in e.reg.group || '/' in (if e.reg.mqtt == "" && e.reg.group != "" then e.reg.name else e.reg.mqtt)
  }

  /** The note is about entry i: a field outside the schema, or a topic level more than one. */
  ghost predicate Noted(es: seq<Entry>, i: nat, d: Diagnostic)
    requires i < |es|
  {
    var e := es[i];
    d.key == e.key && e.decodes && !KeyTaken(es, i, e.key) &&
    match d
    case UnknownField(_, field) => field in e.unknown
    case SlashInTopic(_) =>
      Sound(e) && !AddressTaken(es, i) && !UnsafeTopicIn(e) && !Wild(e.reg.group) && Slashed(e)
    case _ => false
  }

  lemma {:induction false} UnknownNotes(m: Catalogue, key: string, fields: seq<string>, d: Diagnostic)
    ensures
      d in NoteUnknown(m, key, fields).diagnostics <==>
      d in m.diagnostics || (d.UnknownField? && d.key == key && d.field in fields)
  {
    if fields != [] {
      UnknownNotes(m, key, fields[..|fields| - 1], d);
      assert fields == fields[..|fields| - 1] + [fields[|fields| - 1]];
    }
  }

  lemma SlashExactly(r: Register)
    ensures
      Contains(TopicKey(r), {'/'}) || Contains(r.group, {'/'}) <==>
      '/' in r.group || '/' in (if r.mqtt == "" && r.group != "" then r.name else r.mqtt)
  {
  }

  lemma NotesOfStep(m: Catalogue, e: Entry, d: Diagnostic)
    requires Load(m, e).Loaded? && IsNote(d)
    ensures
      d in Load(m, e).catalogue.diagnostics <==>
      || d in m.diagnostics
      || (d.key == e.key && e.decodes && e.key !in m.byKey &&
            if d.UnknownField? then d.field in e.unknown
            else EarlySkip(m, e).None? && !UnsafeTopicIn(e) && !Wild(e.reg.group) && Slashed(e))
  {
    NotesOfLoad(m, e);
    var r := Normalised(e);
    SkipsAreReasons(m, e, r);
    UnknownNotes(m, e.key, e.unknown, d);
    WildExactly(TopicKey(r));
    WildExactly(r.group);
    SlashExactly(r);
    assert !Wild("");
    assert EarlySkip(m, e).None? ==> e.decodes && e.key !in m.byKey;
    hide Load, EarlySkip, LateSkip, Contains, Wild, Numeric, NoteUnknown;
  }

  /** Exactly these notes are made. */
  lemma {:induction false} NotesExactly(es: seq<Entry>, n: nat, d: Diagnostic)
    requires n <= |es| && LoadAll(es).Loaded? && IsNote(d)
    ensures LoadAll(es[..n]).Loaded?
    ensures d in LoadAll(es[..n]).catalogue.diagnostics <==> exists i :: 0 <= i < n && Noted(es, i, d)
  {
    hide LoadAll, Load, Sound, KeyTaken, AddressTaken, UnsafeTopicIn, Wild, Slashed, DigitsValue;
    if n == 0 {
      NothingLoads(es);
    } else {
      var i := n - 1;
      NotesExactly(es, i, d);
      StepIsLoad(es, i);
      var m := LoadAll(es[..i]).catalogue;
      NotesOfStep(m, es[i], d);
      PassesExactly(m, es[i]);
      KeysBefore(es, i, es[i].key);
      TakenExactly(es, i);
      hide EarlySkip, LateSkip;
      assert d in LoadAll(es[..n]).catalogue.diagnostics <==> d in m.diagnostics || Noted(es, i, d);
    }
  }
}
