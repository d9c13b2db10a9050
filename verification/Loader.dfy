/** Building the catalogue from the decoded entries of registers.yaml. */
module Loader {
  import opened Options
  import opened Registers
  import C = Clusters
  import D = Decode
  import opened Numerals
  import Reader

  const MAX_PRECISION := 10
  const MQTT_WILDCARDS := {'+', '#', '\0'}

  /** The spellings of six groups before 2.0.0. */
  const RENAMED_GROUPS := {"now-base", "now-grid", "now-inverter", "now-backup", "now-battery", "now-pv"}

  /**
   One key of the file. `reg` is what its node decodes to on top of the defaults; hasLength and
   hasScale say which of these fields the file spells out; `unknown` are fields outside the schema.
   */
  datatype Entry =
    Entry(key: string, decodes: bool, reg: Register, hasLength: bool, hasScale: bool, unknown: seq<string>)

  datatype Diagnostic =
    | DuplicateKey(key: string)
    | DecodeError(key: string)
    | UnknownField(key: string, field: string)
    | MissingName(key: string)
    | KeyOutOfRange(key: string)
    | InvalidEntry(key: string)
    | DuplicateAddress(key: string, first: string)
    | UnsafeTopic(key: string)
    | UnsafeGroup(key: string)
    | SlashInTopic(key: string)
    | DuplicateMqtt(key: string, first: string)

  /** The catalogue, and what the loader remembers while it builds it. */
  datatype Catalogue = Catalogue(
    all: seq<Register>,
    byKey: map<string, Register>,
    byAddr: map<int, Register>,
    groups: seq<string>,
    seenMqtt: map<string, string>,
    seenAddr: map<int, string>,
    diagnostics: seq<Diagnostic>)

  datatype Outcome = Loaded(catalogue: Catalogue) | RenamedGroup(key: string)

  const EMPTY := Catalogue([], map[], map[], [], map[], map[], [])

  /** strconv.ParseUint(key, 10, 16) */
  function ParseAddress(key: string): Option<Word> {
    if AllDigits(key) && DigitsValue(key) < 0x1_0000 then Some(DigitsValue(key)) else None
  }

  function Contains(s: string, chars: set<char>): bool {
    exists c :: c in s && c in chars
  }

  /** The register with the documented defaults, its key and its address. */
  function Normalised(e: Entry): Register {
    e.reg.(key := e.key,
           length := if !e.hasLength && e.reg.length == 0 then 1 else e.reg.length,
           scale := if !e.hasScale && e.reg.scale == 0 then 1 else e.reg.scale,
           typ := if e.reg.typ.Empty? then U16 else e.reg.typ,
           address := match ParseAddress(e.key) case Some(a) => a case None => 0)
  }

  predicate Numeric(r: Register) {
    ParseAddress(r.key).Some?
  }

  /** validateEntry, without its reasons. */
  predicate Valid(r: Register) {
    && r.length >= 1
    && (Numeric(r) ==> r.length <= C.MAX_READ_WORDS && r.address + r.length <= 0x1_0000)
    && r.scale >= 1
    && (r.precision.Some? ==> 0 <= r.precision.value <= MAX_PRECISION)
    && !r.typ.Unknown? && !r.typ.Empty?
    && D.TypeFits(r.typ, r.length)
  }

  /** What becomes a topic segment: the MQTT suffix, or the name of a grouped register without one. */
  function TopicKey(r: Register): string {
    if r.mqtt == "" && r.group != "" then r.name else r.mqtt
  }

  function Note(m: Catalogue, d: Diagnostic): Catalogue {
    m.(diagnostics := m.diagnostics + [d])
  }

  function NoteUnknown(m: Catalogue, key: string, fields: seq<string>): Catalogue {
    if fields == [] then m
    else Note(NoteUnknown(m, key, fields[..|fields| - 1]), UnknownField(key, fields[|fields| - 1]))
  }

  /** Why an entry is skipped before it can claim its address. */
  function EarlySkip(m: Catalogue, e: Entry): Option<Diagnostic> {
    if e.key in m.byKey then Some(DuplicateKey(e.key))
    else if !e.decodes then Some(DecodeError(e.key))
    else if e.reg.name == "" then Some(MissingName(e.key))
    else if ParseAddress(e.key).None? && AllDigits(e.key) then Some(KeyOutOfRange(e.key))
    else if !Valid(Normalised(e)) then Some(InvalidEntry(e.key))
    else if Numeric(Normalised(e)) && Normalised(e).address in m.seenAddr then
      Some(DuplicateAddress(e.key, m.seenAddr[Normalised(e).address]))
    else None
  }

  /** Why an entry is skipped after it has claimed its address. */
  function LateSkip(m: Catalogue, r: Register): Option<Diagnostic> {
    if Contains(TopicKey(r), MQTT_WILDCARDS) then Some(UnsafeTopic(r.key))
    else if Contains(r.group, MQTT_WILDCARDS) then Some(UnsafeGroup(r.key))
    else if r.mqtt != "" && r.mqtt in m.seenMqtt then Some(DuplicateMqtt(r.key, m.seenMqtt[r.mqtt]))
    else None
  }

  /** Unknown fields are only looked at once the entry has decoded. */
  function WithUnknown(m: Catalogue, e: Entry): Catalogue {
    if e.key in m.byKey || !e.decodes then m else NoteUnknown(m, e.key, e.unknown)
  }

  function Claim(m: Catalogue, r: Register): Catalogue {
    if Numeric(r) then m.(seenAddr := m.seenAddr[r.address := r.key]) else m
  }

  function WithSlash(m: Catalogue, r: Register): Catalogue {
    if Contains(TopicKey(r), MQTT_WILDCARDS) || Contains(r.group, MQTT_WILDCARDS) then m
    else if Contains(TopicKey(r), {'/'}) || Contains(r.group, {'/'}) then Note(m, SlashInTopic(r.key))
    else m
  }

  function Keep(m: Catalogue, r: Register): Catalogue {
    m.(all := m.all + [r],
       byKey := m.byKey[r.key := r],
       byAddr := if Numeric(r) then m.byAddr[r.address := r] else m.byAddr,
       seenMqtt := if r.mqtt != "" then m.seenMqtt[r.mqtt := r.key] else m.seenMqtt,
       groups := if r.group != "" && r.group !in m.groups then m.groups + [r.group] else m.groups)
  }

  /** What one entry makes of the catalogue. */
  function Load(m: Catalogue, e: Entry): Outcome {
    var skip := EarlySkip(m, e);
    var noted := WithUnknown(m, e);
    if skip.Some? then Loaded(Note(noted, skip.value)) else
    var r := Normalised(e);
    var claimed := Claim(noted, r);
    if r.group in RENAMED_GROUPS then RenamedGroup(e.key) else
    var late := LateSkip(m, r);
    var slashed := WithSlash(claimed, r);
    if late.Some? then Loaded(Note(slashed, late.value)) else Loaded(Keep(slashed, r))
  }

  function LoadAll(es: seq<Entry>): Outcome {
    if es == [] then Loaded(EMPTY) else
      match LoadAll(es[..|es| - 1])
      case RenamedGroup(k) => RenamedGroup(k)
      case Loaded(m) => Load(m, es[|es| - 1])
  }

  method Parse(es: seq<Entry>) returns (outcome: Outcome)
    ensures outcome == LoadAll(es)
  {
    var m := EMPTY;
    for i := 0 to |es|
      invariant LoadAll(es[..i]) == Loaded(m)
    {
      var e := es[i];
      assert es[..i + 1][..i] == es[..i];
      var early := EarlySkip(m, e);
      var before := m;
      m := WithUnknown(m, e);
      if early.Some? {
        m := Note(m, early.value);
        continue;
      }
      var r := Normalised(e);
      m := Claim(m, r);
      if r.group in RENAMED_GROUPS {
        outcome := RenamedGroup(e.key);
        RefusalStays(es, i + 1);
        return;
      }
      m := WithSlash(m, r);
      var late := LateSkip(before, r);
      if late.Some? {
        m := Note(m, late.value);
        continue;
      }
      m := Keep(m, r);
    }
    assert es[..|es|] == es;
    outcome := Loaded(m);
  }

  /** Entry i is the one that refuses the file: it passes the early checks and its group is outdated. */
  predicate Refuses(es: seq<Entry>, i: nat)
    requires i < |es|
  {
    && LoadAll(es[..i]).Loaded? && EarlySkip(LoadAll(es[..i]).catalogue, es[i]).None?
    && es[i].reg.group in RENAMED_GROUPS
  }

  lemma {:induction false} RefusalStays(es: seq<Entry>, n: nat)
    requires n <= |es| && LoadAll(es[..n]).RenamedGroup?
    ensures LoadAll(es) == LoadAll(es[..n])
    decreases |es| - n
  {
    if n == |es| {
      assert es[..n] == es;
    } else {
      assert es[..n + 1][..n] == es[..n];
      RefusalStays(es, n + 1);
    }
  }

  // ---------------------------------------------------------------------------------------------
  // What every loaded catalogue keeps
  // ---------------------------------------------------------------------------------------------

  /** Each group once, in the order of first encounter. */
  function GroupsOf(rs: seq<Register>): seq<string> {
    if rs == [] then [] else
      var gs := GroupsOf(rs[..|rs| - 1]);
      var g := rs[|rs| - 1].group;
      if g == "" || g in gs then gs else gs + [g]
  }

  function FindByMqtt(rs: seq<Register>, name: string): Option<Register> {
    if rs == [] then None
    else if rs[0].mqtt == name then Some(rs[0])
    else FindByMqtt(rs[1..], name)
  }

  function ByGroup(rs: seq<Register>, g: string): (out: seq<Register>)
    ensures forall r :: r in out <==> r in rs && r.group == g
  {
    if rs == [] then [] else
      var out := ByGroup(rs[..|rs| - 1], g);
      var last := rs[|rs| - 1];
      assert rs == rs[..|rs| - 1] + [last];
      if last.group == g then out + [last] else out
  }

  ghost predicate KeysRight(m: Catalogue) {
    && (forall i, j :: 0 <= i < j < |m.all| ==> m.all[i].key != m.all[j].key)
    && (forall r :: r in m.all ==> r.key in m.byKey && m.byKey[r.key] == r)
    && (forall k :: k in m.byKey ==> m.byKey[k] in m.all && m.byKey[k].key == k)
  }

  ghost predicate AddressesRight(m: Catalogue) {
    && (forall i, j :: 0 <= i < j < |m.all| && Numeric(m.all[i]) && Numeric(m.all[j]) ==>
          m.all[i].address != m.all[j].address)
    && (forall r :: r in m.all && Numeric(r) ==> r.address in m.byAddr && m.byAddr[r.address] == r)
    && (forall a :: a in m.byAddr ==>
          var r := m.byAddr[a]; r in m.all && Numeric(r) && r.address == a && a in m.seenAddr && m.seenAddr[a] == r.key)
  }

  ghost predicate SuffixesRight(m: Catalogue) {
    && (forall i, j :: 0 <= i < j < |m.all| && m.all[i].mqtt == m.all[j].mqtt ==> m.all[i].mqtt == "")
    && (forall r :: r in m.all && r.mqtt != "" ==> r.mqtt in m.seenMqtt)
    && (forall x :: x in m.seenMqtt ==> exists r :: r in m.all && r.mqtt == x)
  }

  ghost predicate RegistersRight(m: Catalogue) {
    forall r :: r in m.all ==>
      && Valid(r)
      && r.address == (match ParseAddress(r.key) case Some(a) => a case None => 0)
      && (AllDigits(r.key) ==> Numeric(r))
  }

  ghost predicate Inv(m: Catalogue) {
    KeysRight(m) && AddressesRight(m) && SuffixesRight(m) && RegistersRight(m) && m.groups == GroupsOf(m.all)
  }

  lemma KeepsKeys(m: Catalogue, r: Register)
    requires KeysRight(m) && r.key !in m.byKey
    ensures KeysRight(Keep(Claim(m, r), r))
  {
  }

  lemma KeepsAddresses(m: Catalogue, r: Register)
    requires AddressesRight(m) && (Numeric(r) ==> r.address !in m.seenAddr)
    ensures AddressesRight(Claim(m, r)) && AddressesRight(Keep(Claim(m, r), r))
  {
  }

  lemma KeepsSuffixes(m: Catalogue, r: Register)
    requires SuffixesRight(m) && (r.mqtt != "" ==> r.mqtt !in m.seenMqtt)
    ensures SuffixesRight(Keep(Claim(m, r), r))
  {
    var t := Keep(Claim(m, r), r);
    assert t.all == m.all + [r];
    assert t.seenMqtt == if r.mqtt != "" then m.seenMqtt[r.mqtt := r.key] else m.seenMqtt;
    hide Keep, Claim, Numeric;
    forall i | 0 <= i < |m.all| && r.mqtt != "" ensures m.all[i].mqtt != r.mqtt {
      assert m.all[i] in m.all;
    }
    forall x | x in t.seenMqtt ensures exists q :: q in t.all && q.mqtt == x {
      if x in m.seenMqtt {
        var q :| q in m.all && q.mqtt == x;
        assert q in t.all;
      } else {
        assert r in t.all;
      }
    }
  }

  lemma KeepsRegisters(m: Catalogue, r: Register)
    requires RegistersRight(m) && RegistersRight(EMPTY.(all := [r]))
    ensures RegistersRight(Keep(Claim(m, r), r))
  {
    assert r in EMPTY.(all := [r]).all;
    hide Valid, ParseAddress, AllDigits;
  }

  lemma KeepsGroups(m: Catalogue, r: Register)
    requires m.groups == GroupsOf(m.all)
    ensures Keep(Claim(m, r), r).groups == GroupsOf(Keep(Claim(m, r), r).all)
  {
    assert (m.all + [r])[..|m.all|] == m.all;
  }

  /** Notes change nothing but the diagnostics. */
  predicate SameButNotes(m: Catalogue, n: Catalogue) {
    n == m.(diagnostics := n.diagnostics)
  }

  lemma {:induction false} NotesOnly(m: Catalogue, key: string, fields: seq<string>)
    ensures SameButNotes(m, NoteUnknown(m, key, fields))
  {
    if fields != [] {
      NotesOnly(m, key, fields[..|fields| - 1]);
    }
  }

  lemma NotesKeepInv(m: Catalogue, n: Catalogue)
    requires Inv(m) && SameButNotes(m, n)
    ensures Inv(n)
  {
  }

  lemma ClaimKeepsInv(m: Catalogue, r: Register)
    requires Inv(m) && (Numeric(r) ==> r.address !in m.seenAddr)
    ensures Inv(Claim(m, r))
  {
    KeepsAddresses(m, r);
    hide AddressesRight, GroupsOf, Numeric;
  }

  lemma KeepKeepsInv(m: Catalogue, r: Register)
    requires Inv(m) && (Numeric(r) ==> r.address !in m.seenAddr)
    requires r.key !in m.byKey && (r.mqtt != "" ==> r.mqtt !in m.seenMqtt) && RegistersRight(EMPTY.(all := [r]))
    ensures Inv(Keep(Claim(m, r), r))
  {
    hide KeysRight, AddressesRight, SuffixesRight, RegistersRight, GroupsOf, Keep, Claim;
    KeepsKeys(m, r);
    KeepsAddresses(m, r);
    KeepsSuffixes(m, r);
    KeepsRegisters(m, r);
    KeepsGroups(m, r);
  }

  lemma StepsIgnoreNotes(m: Catalogue, n: Catalogue, r: Register, d: Diagnostic)
    requires SameButNotes(m, n)
    ensures SameButNotes(Claim(m, r), Claim(n, r)) && SameButNotes(Keep(m, r), Keep(n, r))
    ensures SameButNotes(m, WithSlash(n, r)) && SameButNotes(m, Note(n, d))
  {
  }

  /** The notes of an entry's earlier steps do not change what it makes of the rest. */
  lemma LoadWithoutNotes(m: Catalogue, e: Entry)
    requires Load(m, e).Loaded?
    ensures
      var r := Normalised(e);
      SameButNotes(
        if EarlySkip(m, e).Some? then m
        else if LateSkip(m, r).Some? then Claim(m, r)
        else Keep(Claim(m, r), r),
        Load(m, e).catalogue)
  {
    NotesOnly(m, e.key, e.unknown);
    var n, r := WithUnknown(m, e), Normalised(e);
    assert SameButNotes(m, n);
    var d := DecodeError("");
    hide EarlySkip, LateSkip, WithUnknown, Normalised, Claim, Keep, WithSlash, Note, SameButNotes;
    if EarlySkip(m, e).Some? {
      StepsIgnoreNotes(m, n, r, EarlySkip(m, e).value);
    } else {
      StepsIgnoreNotes(m, n, r, d);
      var slashed := WithSlash(Claim(n, r), r);
      StepsIgnoreNotes(Claim(m, r), Claim(n, r), r, d);
      if LateSkip(m, r).Some? {
        StepsIgnoreNotes(Claim(m, r), slashed, r, LateSkip(m, r).value);
      } else {
        StepsIgnoreNotes(Claim(m, r), slashed, r, d);
      }
    }
  }

  lemma LoadKeepsInv(m: Catalogue, e: Entry)
    requires Inv(m) && Load(m, e).Loaded?
    ensures Inv(Load(m, e).catalogue)
  {
    LoadWithoutNotes(m, e);
    var r := Normalised(e);
    var n := Load(m, e).catalogue;
    if EarlySkip(m, e).Some? {
      NotesKeepInv(m, n);
    } else {
      assert RegistersRight(EMPTY.(all := [r]));
      hide Inv, Load, Claim, Keep;
      ClaimKeepsInv(m, r);
      if LateSkip(m, r).Some? {
        NotesKeepInv(Claim(m, r), n);
      } else {
        KeepKeepsInv(m, r);
        NotesKeepInv(Keep(Claim(m, r), r), n);
      }
    }
  }

  lemma {:induction false} EveryCatalogue(es: seq<Entry>)
    requires LoadAll(es).Loaded?
    ensures Inv(LoadAll(es).catalogue)
  {
    if es != [] {
      EveryCatalogue(es[..|es| - 1]);
      LoadKeepsInv(LoadAll(es[..|es| - 1]).catalogue, es[|es| - 1]);
    }
  }

  lemma {:induction false} FindsIt(rs: seq<Register>, i: nat)
    requires i < |rs| && forall j :: 0 <= j < i ==> rs[j].mqtt != rs[i].mqtt
    ensures FindByMqtt(rs, rs[i].mqtt) == Some(rs[i])
  {
    if i > 0 {
      FindsIt(rs[1..], i - 1);
    }
  }

  /**
   Of every loaded file: keys, parsed addresses and non-empty MQTT suffixes are distinct, ByKey,
   ByAddr and FindByMQTT give back each kept register itself, and Groups lists each group once in
   the order of first encounter.
   */
  lemma CatalogueIsConsistent(es: seq<Entry>, i: nat)
    requires LoadAll(es).Loaded? && i < |LoadAll(es).catalogue.all|
    ensures
      var m := LoadAll(es).catalogue;
      var r := m.all[i];
      && r.key in m.byKey && m.byKey[r.key] == r
      && (Numeric(r) ==> r.address in m.byAddr && m.byAddr[r.address] == r)
      && (r.mqtt != "" ==> FindByMqtt(m.all, r.mqtt) == Some(r))
      && (forall j :: 0 <= j < |m.all| && j != i ==>
            && m.all[j].key != r.key
            && (Numeric(r) && Numeric(m.all[j]) ==> m.all[j].address != r.address)
            && (r.mqtt != "" ==> m.all[j].mqtt != r.mqtt))
    ensures LoadAll(es).catalogue.groups == GroupsOf(LoadAll(es).catalogue.all)
  {
    EveryCatalogue(es);
    var m := LoadAll(es).catalogue;
    assert m.all[i] in m.all;
    if m.all[i].mqtt != "" {
      FindsIt(m.all, i);
    }
    hide RegistersRight, GroupsOf;
  }

  lemma {:induction false} GroupsOfOnce(rs: seq<Register>)
    ensures forall i, j :: 0 <= i < j < |GroupsOf(rs)| ==> GroupsOf(rs)[i] != GroupsOf(rs)[j]
    ensures forall g :: g in GroupsOf(rs) <==> g != "" && exists r :: r in rs && r.group == g
  {
    if rs != [] {
      var init, last := rs[..|rs| - 1], rs[|rs| - 1];
      assert rs == init + [last];
      GroupsOfOnce(init);
      forall g ensures g in GroupsOf(rs) <==> g != "" && exists r :: r in rs && r.group == g {
        if r :| r in init && r.group == g {
          assert r in rs;
        }
        if g == last.group {
          assert last in rs;
        }
      }
    }
  }

  /**
   A kept register is read and decoded without fail: its length fits its type, its read is a legal
   one, and a window of its declared length always decodes.
   */
  lemma KeptRegistersDecode(es: seq<Entry>, r: Register, raw: seq<Word>)
    requires LoadAll(es).Loaded? && r in LoadAll(es).catalogue.all && |raw| >= r.length
    ensures D.Decode(r, raw).Ok?
    ensures r.IsModbus() ==> Reader.Loaded(r)
  {
    EveryCatalogue(es);
    hide KeysRight, AddressesRight, SuffixesRight, GroupsOf;
    D.DecodesWhenTypeFits(r, raw);
    assert DigitsValue("0") == 0 by { assert "0"[..0] == ""; }
    assert r.key == "0" ==> AllDigits(r.key);
  }

  /** What the loader keeps of a group meets the reader's needs, up to distinct output keys. */
  lemma LoadedGroupsCanBeRead(es: seq<Entry>, g: string)
    requires LoadAll(es).Loaded?
    ensures forall r :: r in C.Entries(ByGroup(LoadAll(es).catalogue.all, g)) ==> Reader.Loaded(r)
  {
    var members := ByGroup(LoadAll(es).catalogue.all, g);
    C.EntriesAreFirsts(members);
    forall r | r in C.Entries(members) ensures Reader.Loaded(r) {
      var i :| 0 <= i < |members| && members[i] == r && C.FirstOfAddress(members, i);
      KeptRegistersDecode(es, r, seq<Word>(if r.length < 0 then 0 else r.length, i => 0));
    }
  }

  // ---------------------------------------------------------------------------------------------
  // Two traps
  // ---------------------------------------------------------------------------------------------

  /** The entry is sound in itself and spells address a, whatever becomes of it. */
  predicate Names(e: Entry, a: int) {
    && e.decodes && e.reg.name != "" && !(ParseAddress(e.key).None? && AllDigits(e.key))
    && Valid(Normalised(e)) && Numeric(Normalised(e)) && Normalised(e).address == a
  }

  /** Entry i is the first to name address a. */
  ghost predicate FirstToName(es: seq<Entry>, a: int, i: nat) {
    i < |es| && Names(es[i], a) && forall j :: 0 <= j < i ==> !Names(es[j], a)
  }

  /** An address that is claimed stays with its claimant. */
  lemma ClaimStays(m: Catalogue, e: Entry, a: int)
    requires a in m.seenAddr && Load(m, e).Loaded?
    ensures
      var n := Load(m, e).catalogue;
      && a in n.seenAddr && n.seenAddr[a] == m.seenAddr[a]
      && (a in n.byAddr <==> a in m.byAddr) && (a in m.byAddr ==> n.byAddr[a] == m.byAddr[a])
  {
    LoadWithoutNotes(m, e);
    hide Load, Valid, Contains;
  }

  lemma OthersClaimNothing(m: Catalogue, e: Entry, a: int)
    requires a !in m.seenAddr && !Names(e, a) && Load(m, e).Loaded?
    ensures a !in Load(m, e).catalogue.seenAddr
  {
    LoadWithoutNotes(m, e);
    hide Load, Valid, Contains;
  }

  lemma KeptKeyIsClaimed(m: Catalogue, key: string)
    requires Inv(m) && key in m.byKey && AllDigits(key) && ParseAddress(key).Some?
    ensures ParseAddress(key).value in m.seenAddr
  {
    var r := m.byKey[key];
    hide SuffixesRight, GroupsOf, Valid, ParseAddress, AllDigits;
    assert r in m.all && r.key == key;
    assert Numeric(r);
  }

  /** The first entry to name an address passes the early checks and claims it. */
  lemma FirstNamePasses(m: Catalogue, e: Entry, a: int)
    requires Inv(m) && a !in m.seenAddr && Names(e, a)
    ensures EarlySkip(m, e).None?
  {
    if e.key in m.byKey {
      KeptKeyIsClaimed(m, e.key);
    }
  }

  lemma FirstNameClaims(m: Catalogue, e: Entry, a: int)
    requires Inv(m) && a !in m.seenAddr && Names(e, a) && Load(m, e).Loaded?
    ensures
      var n := Load(m, e).catalogue;
      && a in n.seenAddr && n.seenAddr[a] == e.key
      && (a in n.byAddr <==> LateSkip(m, Normalised(e)).None?)
      && (a in n.byAddr ==> n.byAddr[a] == Normalised(e))
  {
    FirstNamePasses(m, e, a);
    LoadWithoutNotes(m, e);
    assert a !in m.byAddr by {
      hide KeysRight, SuffixesRight, RegistersRight, GroupsOf, Names;
    }
    hide Load, Valid, Contains, Inv, EarlySkip, LateSkip;
  }

  lemma {:induction false} UnnamedIsFree(es: seq<Entry>, a: int)
    requires LoadAll(es).Loaded? && forall i :: 0 <= i < |es| ==> !Names(es[i], a)
    ensures a !in LoadAll(es).catalogue.seenAddr && a !in LoadAll(es).catalogue.byAddr
  {
    if es != [] {
      var init := es[..|es| - 1];
      assert forall i :: 0 <= i < |init| ==> init[i] == es[i];
      UnnamedIsFree(init, a);
      EveryCatalogue(es);
      hide KeysRight, SuffixesRight, RegistersRight, GroupsOf, Names, Load;
      OthersClaimNothing(LoadAll(init).catalogue, es[|es| - 1], a);
    }
  }

  /**
   An address belongs to the first sound entry that names it, even if that entry is skipped later on:
   it is served exactly when this entry passes the late checks, and then by this entry's register.
   */
  lemma {:induction false} AddressGoesToFirstClaimant(es: seq<Entry>, a: int, i: nat)
    requires LoadAll(es).Loaded? && FirstToName(es, a, i)
    ensures
      var m := LoadAll(es).catalogue;
      && LoadAll(es[..i]).Loaded?
      && a in m.seenAddr && m.seenAddr[a] == es[i].key
      && (a in m.byAddr <==> LateSkip(LoadAll(es[..i]).catalogue, Normalised(es[i])).None?)
      && (a in m.byAddr ==> m.byAddr[a] == Normalised(es[i]))
  {
    var init, e := es[..|es| - 1], es[|es| - 1];
    var m := LoadAll(init).catalogue;
    assert forall j :: 0 <= j < |init| ==> init[j] == es[j];
    hide Names, Load, LateSkip, Normalised, Inv;
    if i == |es| - 1 {
      UnnamedIsFree(init, a);
      EveryCatalogue(init);
      FirstNameClaims(m, e, a);
    } else {
      assert init[..i] == es[..i];
      AddressGoesToFirstClaimant(init, a, i);
      ClaimStays(m, e, a);
    }
  }

  /** The file is refused exactly when an entry refuses it, and that is the entry reported. */
  lemma {:induction false} RefusedByEntry(es: seq<Entry>)
    ensures LoadAll(es).RenamedGroup? <==> exists i :: 0 <= i < |es| && Refuses(es, i)
    ensures forall i :: 0 <= i < |es| && Refuses(es, i) ==> LoadAll(es) == RenamedGroup(es[i].key)
  {
    forall i | 0 <= i < |es| && Refuses(es, i) ensures LoadAll(es) == RenamedGroup(es[i].key) {
      assert es[..i + 1][..i] == es[..i];
      assert LoadAll(es[..i + 1]) == RenamedGroup(es[i].key);
      RefusalStays(es, i + 1);
    }
    if LoadAll(es).RenamedGroup? {
      var i := RefusingEntry(es);
    }
  }

  lemma {:induction false} RefusingEntry(es: seq<Entry>) returns (i: nat)
    requires LoadAll(es).RenamedGroup?
    ensures i < |es| && Refuses(es, i)
  {
    var init := es[..|es| - 1];
    i := |es| - 1;
    if LoadAll(init).RenamedGroup? {
      i := RefusingEntry(init);
      assert init[..i] == es[..i] && init[i] == es[i];
    }
  }

  lemma SevenReads()
    ensures ParseAddress("7") == Some(7) && ParseAddress("07") == Some(7)
  {
    assert "7"[..0] == "" && "07"[..1] == "0" && "0"[..0] == "";
    assert DigitsValue("0") == 0 && DigitsValue("7") == 7 && DigitsValue("07") == 7;
  }

  lemma {:induction false} LoadsOne(e: Entry)
    ensures LoadAll([e]) == Load(EMPTY, e)
  {
    assert [e][..0] == [];
  }

  lemma LoadsTwo(e: Entry, f: Entry)
    requires Load(EMPTY, e).Loaded?
    ensures LoadAll([e, f]) == Load(Load(EMPTY, e).catalogue, f)
  {
    hide Load;
    assert [e, f][..1] == [e];
    LoadsOne(e);
  }

  /** So a broken entry can keep a sound one with the same address out: of these two, none is kept. */
  lemma ClaimedAndLost(r: Register)
    requires r.name != "" && r.length == 1 && r.scale == 1 && r.precision == None && r.typ == U16 && r.group == ""
    ensures
      var broken := Entry("7", true, r.(mqtt := "a+"), true, true, []);
      var sound := Entry("07", true, r.(mqtt := "b"), true, true, []);
      && LoadAll([broken, sound]).Loaded? && LoadAll([broken, sound]).catalogue.all == []
      && LoadAll([sound]).Loaded? && LoadAll([sound]).catalogue.all == [Normalised(sound)]
  {
    var broken := Entry("7", true, r.(mqtt := "a+"), true, true, []);
    var sound := Entry("07", true, r.(mqtt := "b"), true, true, []);
    SevenReads();
    hide DigitsValue, AllDigits, ParseAddress, LoadAll;
    assert '+' in "a+" && '+' in MQTT_WILDCARDS;
    LoadsOne(sound);
    LoadsTwo(broken, sound);
  }

  /** A numeric key is stored by address; it counts as Modbus unless it spells zero as "00" or so. */
  lemma ZeroMustBeSpelledPlainly(es: seq<Entry>, r: Register)
    requires LoadAll(es).Loaded? && r in LoadAll(es).catalogue.all
    ensures r.IsModbus() <==> Numeric(r) && (r.address == 0 ==> r.key == "0")
    ensures Numeric(r) ==> r.address in LoadAll(es).catalogue.byAddr
  {
    EveryCatalogue(es);
    assert DigitsValue("0") == 0 by { assert "0"[..0] == ""; }
    assert r.key == "0" ==> AllDigits(r.key);
    hide KeysRight, SuffixesRight, GroupsOf;
  }

  lemma ZerosRead()
    ensures ParseAddress("00") == Some(0)
  {
    assert "00"[..1] == "0" && "0"[..0] == "";
    assert DigitsValue("0") == 0 && DigitsValue("00") == 0;
  }

  /** So a register with key "00" is kept and stored under address 0, and never read. */
  lemma ZeroSpelledTwice(r: Register)
    requires r.name != "" && r.length == 1 && r.scale == 1 && r.precision == None && r.typ == U16 && r.group == ""
    ensures
      var e := Entry("00", true, r.(mqtt := "b"), true, true, []);
      && LoadAll([e]).Loaded? && LoadAll([e]).catalogue.all == [Normalised(e)]
      && 0 in LoadAll([e]).catalogue.byAddr && LoadAll([e]).catalogue.byAddr[0] == Normalised(e)
      && !Normalised(e).IsModbus()
  {
    var e := Entry("00", true, r.(mqtt := "b"), true, true, []);
    ZerosRead();
    hide DigitsValue, AllDigits, ParseAddress, LoadAll;
    LoadsOne(e);
  }
}
