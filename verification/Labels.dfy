/**
 The text a register with value items publishes: labels of codes, names of faults. On the wire it is
 English; Home Assistant turns it into the language of the user with a generated template.
 */
module Labels {
  import opened Options
  import opened Registers
  import D = Decode
  import opened Text
  import opened BitField

  const OK := "OK"
  const UNKNOWN := "Unknown"

  // ---------------------------------------------------------------------------------------------
  // Sorting the masks
  // ---------------------------------------------------------------------------------------------

  function Inserted(s: seq<int>, x: int): seq<int> {
    if s == [] || s[|s| - 1] <= x then s + [x] else Inserted(s[..|s| - 1], x) + [s[|s| - 1]]
  }

  function Sorted(s: seq<int>): seq<int> {
    if s == [] then [] else Inserted(Sorted(s[..|s| - 1]), s[|s| - 1])
  }

  ghost predicate Ordered(s: seq<int>) {
    forall i, j :: 0 <= i < j < |s| ==> s[i] <= s[j]
  }

  lemma {:induction false} InsertedLength(s: seq<int>, x: int)
    ensures |Inserted(s, x)| == |s| + 1
  {
    if s != [] && s[|s| - 1] > x {
      InsertedLength(s[..|s| - 1], x);
    }
  }

  lemma {:induction false} InsertedKeeps(s: seq<int>, x: int)
    ensures multiset(Inserted(s, x)) == multiset(s) + multiset{x}
  {
    if s != [] && s[|s| - 1] > x {
      InsertedKeeps(s[..|s| - 1], x);
      assert s == s[..|s| - 1] + [s[|s| - 1]];
    }
  }

  lemma {:induction false} InsertedIsOrdered(s: seq<int>, x: int)
    requires Ordered(s)
    ensures Ordered(Inserted(s, x))
  {
    if s != [] && s[|s| - 1] > x {
      var init, last := s[..|s| - 1], s[|s| - 1];
      InsertedIsOrdered(init, x);
      InsertedLength(init, x);
      InsertedKeeps(init, x);
      var t := Inserted(init, x);
      forall i | 0 <= i < |t| ensures t[i] <= last {
        assert t[i] in multiset(t);
        assert t[i] in init || t[i] == x;
      }
    }
  }

  /** Sorting orders the elements and keeps each as often as it was there. */
  lemma {:induction false} SortedIsOrdered(s: seq<int>)
    ensures Ordered(Sorted(s)) && multiset(Sorted(s)) == multiset(s)
  {
    if s != [] {
      SortedIsOrdered(s[..|s| - 1]);
      InsertedIsOrdered(Sorted(s[..|s| - 1]), s[|s| - 1]);
      InsertedKeeps(Sorted(s[..|s| - 1]), s[|s| - 1]);
      assert s == s[..|s| - 1] + [s[|s| - 1]];
    }
  }

  lemma {:induction false} InsertedAt(s: seq<int>, x: int, j: nat)
    requires j <= |s| && (forall k :: j <= k < |s| ==> s[k] > x) && (j > 0 ==> s[j - 1] <= x)
    ensures Inserted(s, x) == s[..j] + [x] + s[j..]
  {
    if j < |s| {
      InsertedAt(s[..|s| - 1], x, j);
      assert s[..|s| - 1][..j] == s[..j];
      assert s[j..] == s[..|s| - 1][j..] + [s[|s| - 1]];
    }
  }

  /** Moves a[i] down to its place among the elements before it. */
  method SinkInto(a: array<int>, i: nat)
    requires i < a.Length
    modifies a
    ensures a[..] == Inserted(old(a[..i]), old(a[i])) + old(a[i + 1..])
  {
    ghost var s, x := a[..i], a[i];
    var j := i;
    while j > 0 && a[j - 1] > a[j]
      invariant 0 <= j <= i
      invariant a[j] == x
      invariant forall k :: 0 <= k < j ==> a[k] == s[k]
      invariant forall k :: j < k <= i ==> a[k] == s[k - 1] && a[k] > x
      invariant forall k :: i < k < a.Length ==> a[k] == old(a[k])
    {
      a[j], a[j - 1] := a[j - 1], a[j];
      j := j - 1;
    }
    assert forall k :: j <= k < i ==> s[k] == a[k + 1];
    InsertedAt(s, x, j);
    assert a[..] == s[..j] + [x] + s[j..] + old(a[i + 1..]);
  }

  lemma {:induction false} SortedLength(s: seq<int>)
    ensures |Sorted(s)| == |s|
  {
    if s != [] {
      SortedLength(s[..|s| - 1]);
      InsertedLength(Sorted(s[..|s| - 1]), s[|s| - 1]);
    }
  }

  method SortInts(a: array<int>)
    modifies a
    ensures a[..] == Sorted(old(a[..]))
  {
    ghost var s := a[..];
    var i := 0;
    while i < a.Length
      invariant 0 <= i <= a.Length
      invariant a[..i] == Sorted(s[..i]) && a[i..] == s[i..]
    {
      assert a[i] == a[i..][0] == s[i];
      ghost var front := a[..i];
      ghost var back := a[i + 1..];
      assert back == a[i..][1..];
      SinkInto(a, i);
      SortedLength(s[..i]);
      InsertedLength(front, s[i]);
      assert s[..i + 1][..i] == s[..i];
      assert a[..i + 1] == Inserted(front, s[i]);
      i := i + 1;
    }
    assert s[..a.Length] == s && a[..a.Length] == a[..];
  }

  ghost predicate StrictlyAscending(s: seq<int>) {
    forall i, j :: 0 <= i < j < |s| ==> s[i] < s[j]
  }

  /** `s` lists the keys of the value items in ascending order. */
  ghost predicate Lists(s: seq<int>, keys: set<int>) {
    StrictlyAscending(s) && forall c :: c in s <==> c in keys
  }

  lemma LastIsLargest(s: seq<int>, keys: set<int>)
    requires Lists(s, keys)
    ensures s != [] <==> keys != {}
    ensures s != [] ==> s[|s| - 1] in keys && forall c :: c in keys ==> c <= s[|s| - 1]
  {
    if s != [] {
      assert s[|s| - 1] in s;
    } else {
      assert forall c :: c in keys ==> c in s;
      assert keys == {};
    }
  }

  lemma WithoutLast(s: seq<int>, keys: set<int>)
    requires Lists(s, keys) && s != []
    ensures Lists(s[..|s| - 1], keys - {s[|s| - 1]})
  {
    var init, last := s[..|s| - 1], s[|s| - 1];
    assert s == init + [last];
    forall c | c in init ensures c != last {
      var i :| 0 <= i < |init| && init[i] == c;
      assert s[i] < last;
    }
  }

  lemma {:induction false} ListIsUnique(s: seq<int>, t: seq<int>, keys: set<int>)
    requires Lists(s, keys) && Lists(t, keys)
    ensures s == t
  {
    LastIsLargest(s, keys);
    LastIsLargest(t, keys);
    if s != [] {
      var last := s[|s| - 1];
      assert last == t[|t| - 1];
      WithoutLast(s, keys);
      WithoutLast(t, keys);
      hide Lists;
      ListIsUnique(s[..|s| - 1], t[..|t| - 1], keys - {last});
      assert s == s[..|s| - 1] + [last] && t == t[..|t| - 1] + [last];
    }
  }

  lemma {:induction false} DistinctOccursOnce(s: seq<int>, c: int)
    requires forall i, j :: 0 <= i < j < |s| ==> s[i] != s[j]
    ensures multiset(s)[c] <= 1
  {
    if s != [] {
      var init, last := s[..|s| - 1], s[|s| - 1];
      assert s == init + [last];
      assert last !in init;
      DistinctOccursOnce(init, c);
    }
  }

  lemma TwiceInMultiset(t: seq<int>, i: nat, j: nat)
    requires i < j < |t| && t[i] == t[j]
    ensures multiset(t)[t[i]] >= 2
  {
    assert t == t[..j] + t[j..];
    assert t[..j][i] == t[i] && t[j..][0] == t[j];
  }

  /** Sorting any arrangement of the keys lists them. */
  lemma SortedLists(s: seq<int>, keys: set<int>)
    requires forall i, j :: 0 <= i < j < |s| ==> s[i] != s[j]
    requires forall c :: c in s <==> c in keys
    ensures Lists(Sorted(s), keys)
  {
    SortedIsOrdered(s);
    var t := Sorted(s);
    forall c ensures c in t <==> c in keys {
      assert c in t <==> c in multiset(t);
      assert c in s <==> c in multiset(s);
    }
    forall i, j | 0 <= i < j < |t| ensures t[i] < t[j] {
      DistinctOccursOnce(s, t[i]);
      if t[i] == t[j] {
        TwiceInMultiset(t, i, j);
      }
    }
  }

  lemma {:induction false} ListExists(keys: set<int>) returns (s: seq<int>)
    ensures Lists(s, keys)
    decreases keys
  {
    s := [];
    if c :| c in keys {
      var t := ListExists(keys - {c});
      assert forall x :: x in t + [c] <==> x in keys;
      SortedLists(t + [c], keys);
      s := Sorted(t + [c]);
    }
  }

  ghost function Ascending(keys: set<int>): (s: seq<int>)
    ensures Lists(s, keys)
  {
    assert exists t :: Lists(t, keys) by {
      var t := ListExists(keys);
    }
    var s :| Lists(s, keys);
    s
  }

  // ---------------------------------------------------------------------------------------------
  // From a value to its label
  // ---------------------------------------------------------------------------------------------

  /** What the catalogue has no label for, as the warning line reports it. */
  datatype Unmapped = Nothing | Code(code: int) | Raw(text: string) | Bits(bits: nat)

  function Truncate(x: real): int {
    if x < 0.0 then -(-x).Floor else x.Floor
  }

  function ToInt(val: D.Value): Option<int> {
    match val
    case Int(i) => Some(i)
    case Int64(i) => Some(i)
    case Float(x) => Some(Truncate(x))
    case Text(_) => None
  }

  /** `c` is a mask that names bits of the field. */
  predicate Names(c: int, bits: nat) {
    c > 0 && And(bits, c) != 0
  }

  function Named(bits: nat, codes: seq<int>): seq<int> {
    if codes == [] then []
    else
      var c := codes[|codes| - 1];
      Named(bits, codes[..|codes| - 1]) + if Names(c, bits) then [c] else []
  }

  function Rest(bits: nat, codes: seq<int>): nat {
    if codes == [] then bits
    else
      var c := codes[|codes| - 1];
      var rest := Rest(bits, codes[..|codes| - 1]);
      if Names(c, bits) then AndNot(rest, c) else rest
  }

  function LabelsOf(masks: seq<int>, items: map<int, string>): seq<string>
    requires forall i :: 0 <= i < |masks| ==> masks[i] in items
  {
    seq(|masks|, i requires 0 <= i < |masks| => items[masks[i]])
  }

  lemma {:induction false} NamedAre(bits: nat, codes: seq<int>)
    ensures forall c :: c in Named(bits, codes) <==> c in codes && Names(c, bits)
    ensures StrictlyAscending(codes) ==> StrictlyAscending(Named(bits, codes))
  {
    if codes != [] {
      var init, last := codes[..|codes| - 1], codes[|codes| - 1];
      assert codes == init + [last];
      NamedAre(bits, init);
      var masks := Named(bits, init);
      if StrictlyAscending(codes) {
        forall i | 0 <= i < |masks| ensures masks[i] < last {
          assert masks[i] in masks;
          assert masks[i] in init;
        }
      }
    }
  }

  ghost predicate Covered(i: nat, codes: seq<int>) {
    exists k :: 0 <= k < |codes| && codes[k] > 0 && Bit(codes[k], i)
  }

  lemma {:induction false} RestAre(bits: nat, codes: seq<int>, i: nat)
    ensures Bit(Rest(bits, codes), i) <==> Bit(bits, i) && !Covered(i, codes)
  {
    if codes != [] {
      var init, last := codes[..|codes| - 1], codes[|codes| - 1];
      RestAre(bits, init, i);
      assert Covered(i, codes) <==> Covered(i, init) || (last > 0 && Bit(last, i));
      if Names(last, bits) {
        AndNotBits(Rest(bits, init), last, i);
      } else if last > 0 {
        MeetIsAnd(bits, last);
      }
    }
  }

  lemma NamedHaveLabels(masks: seq<int>, bits: nat, items: map<int, string>)
    requires masks == Named(bits, Ascending(items.Keys))
    ensures forall i :: 0 <= i < |masks| ==> masks[i] in items
  {
    var codes := Ascending(items.Keys);
    NamedAre(bits, codes);
    hide Named, Ascending;
    forall i | 0 <= i < |masks| ensures masks[i] in items {
      var c := masks[i];
      assert c in masks;
      assert c in codes;
    }
  }

  /** The label of a value and what of it has none (decodeCode). */
  ghost function Decoded(val: D.Value, items: map<int, string>): (string, Unmapped) {
    match val
    case Text(s) =>
      var flat := WithoutSpaces(s);
      if flat == "" then (OK, Nothing) else
      var parsed := ParseBits(flat);
      if parsed == None then (UNKNOWN, Raw(s))
      else if parsed.value == 0 then (OK, Nothing)
      else DecodedBits(parsed.value, items)
    case _ =>
      var code := ToInt(val).value;
      if code in items then (items[code], Nothing) else (UNKNOWN, Code(code))
  }

  ghost function DecodedBits(bits: nat, items: map<int, string>): (string, Unmapped) {
    var codes := Ascending(items.Keys);
    var masks := Named(bits, codes);
    var rest := Rest(bits, codes);
    NamedHaveLabels(masks, bits, items);
    (if masks == [] then UNKNOWN else Join(LabelsOf(masks, items)), if rest == 0 then Nothing else Bits(rest))
  }

  ghost function Label(val: D.Value, items: map<int, string>): string {
    Decoded(val, items).0
  }

  /** The keys in ascending order, whatever order the map yields them in. */
  method SortedKeys(items: map<int, string>) returns (codes: seq<int>)
    ensures codes == Ascending(items.Keys)
  {
    codes := [];
    var todo := items.Keys;
    while true
      invariant todo <= items.Keys
      invariant forall c :: c in codes <==> c in items.Keys - todo
      invariant forall i, j :: 0 <= i < j < |codes| ==> codes[i] != codes[j]
      decreases todo
    {
      if c :| c in todo {
        codes := codes + [c];
        todo := todo - {c};
      } else {
        break;
      }
    }
    SortedLists(codes, items.Keys);
    var a := new int[|codes|](i requires 0 <= i < |codes| => codes[i]);
    assert a[..] == codes;
    SortInts(a);
    codes := a[..];
    ListIsUnique(codes, Ascending(items.Keys), items.Keys);
  }

  method DecodeCode(val: D.Value, items: map<int, string>) returns (name: string, unmapped: Unmapped)
    ensures (name, unmapped) == Decoded(val, items)
  {
    var code := ToInt(val);
    if code.Some? {
      if code.value in items {
        return items[code.value], Nothing;
      }
      return UNKNOWN, Code(code.value);
    }
    var flat := WithoutSpaces(val.text);
    if flat == "" {
      return OK, Nothing;
    }
    var parsed := ParseBits(flat);
    if parsed == None {
      return UNKNOWN, Raw(val.text);
    }
    var bits := parsed.value;
    if bits == 0 {
      return OK, Nothing;
    }
    var faults, rest := NameBits(bits, items);
    unmapped := if rest != 0 then Bits(rest) else Nothing;
    name := if faults == [] then UNKNOWN else Join(faults);
  }

  /** The faults of a non-zero field, lowest mask first, and the bits no mask covers. */
  method NameBits(bits: nat, items: map<int, string>) returns (faults: seq<string>, rest: nat)
    ensures
      var codes := Ascending(items.Keys);
      var masks := Named(bits, codes);
      && (forall i :: 0 <= i < |masks| ==> masks[i] in items)
      && faults == LabelsOf(masks, items)
      && rest == Rest(bits, codes)
  {
    var codes := SortedKeys(items);
    faults, rest := [], bits;
    ghost var masks: seq<int> := [];
    for i := 0 to |codes|
      invariant masks == Named(bits, codes[..i]) && rest == Rest(bits, codes[..i])
      invariant forall k :: 0 <= k < |masks| ==> masks[k] in items
      invariant faults == LabelsOf(masks, items)
    {
      var c := codes[i];
      assert c in codes && codes[..i + 1][..i] == codes[..i];
      if c <= 0 {
        continue;
      }
      if And(bits, c) != 0 {
        faults := faults + [items[c]];
        rest := AndNot(rest, c);
        masks := masks + [c];
      }
    }
    assert codes[..|codes|] == codes;
  }

  // ---------------------------------------------------------------------------------------------
  // What a label tells
  // ---------------------------------------------------------------------------------------------

  /** A number is cut towards zero. */
  lemma TruncatesTowardsZero(x: real)
    ensures
      var n := Truncate(x) as real;
      if x < 0.0 then x <= n <= 0.0 && n < x + 1.0 else 0.0 <= n <= x && x < n + 1.0
  {
  }

  /** `n` is the integer of the value: the value itself, or a number cut towards zero. */
  ghost predicate Carries(val: D.Value, n: int) {
    match val
    case Int(i) => n == i
    case Int64(i) => n == i
    case Float(x) =>
      if x < 0.0 then x <= n as real <= 0.0 && n as real < x + 1.0
      else 0.0 <= n as real <= x && x < n as real + 1.0
    case Text(_) => false
  }

  /** Every value but a text carries exactly one integer and shows the label of this code, if it has one. */
  lemma CodesAreLabelled(val: D.Value, n: int, items: map<int, string>)
    requires Carries(val, n)
    ensures Decoded(val, items) == if n in items then (items[n], Nothing) else (UNKNOWN, Code(n))
    ensures forall k :: Carries(val, k) ==> k == n
  {
    if val.Float? {
      TruncatesTowardsZero(val.x);
      assert Carries(val, Truncate(val.x));
    }
    forall k | Carries(val, k) ensures k == n {
    }
  }

  lemma AllCarry(val: D.Value) returns (n: int)
    requires !val.Text?
    ensures Carries(val, n)
  {
    n := ToInt(val).value;
    if val.Float? {
      TruncatesTowardsZero(val.x);
    }
  }

  /** A register of one unscaled word shows the label of the word, whatever else the window holds. */
  lemma WordShowsLabel(reg: Register, raw: seq<Word>, items: map<int, string>)
    requires reg.typ in {U16, Empty} && reg.scale <= 1 && |raw| >= D.Length(reg)
    ensures
      var r := D.Decode(reg, raw);
      r.Ok? && Decoded(r.value, items) ==
        if raw[0] in items then (items[raw[0]], Nothing) else (UNKNOWN, Code(raw[0]))
  {
  }

  /** OK is never a guess: a text reads OK exactly when it is blank or a binary number equal to zero. */
  lemma OKIsProven(text: string, items: map<int, string>)
    requires !IsLabel(OK, items)
    ensures
      Label(D.Text(text), items) == OK <==>
      WithoutSpaces(text) == "" || ParseBits(WithoutSpaces(text)) == Some(0)
  {
    var parsed := ParseBits(WithoutSpaces(text));
    hide ParseBits, WithoutSpaces;
    if parsed.Some? {
      var masks := FaultsAreNamed(parsed.value, items);
      if masks != [] {
        LabelsKeepOut(masks, items, OK);
      }
    }
  }

  /** `masks` are the codes that name bits of the field, in ascending order. */
  ghost predicate AreFaults(masks: seq<int>, bits: nat, items: map<int, string>) {
    StrictlyAscending(masks) && forall c: int :: c in masks <==> c in items && c > 0 && Meet(bits, c)
  }

  /** A code of the catalogue names bit i. */
  ghost predicate HasName(i: nat, items: map<int, string>) {
    exists c: int :: c in items && c > 0 && Bit(c, i)
  }

  lemma CoveredHasName(i: nat, items: map<int, string>)
    ensures Covered(i, Ascending(items.Keys)) <==> HasName(i, items)
  {
    var codes := Ascending(items.Keys);
    assert forall c :: c in codes <==> c in items;
    if Covered(i, codes) {
      var k :| 0 <= k < |codes| && codes[k] > 0 && Bit(codes[k], i);
      assert codes[k] in codes;
    }
    if HasName(i, items) {
      var c: int :| c in items && c > 0 && Bit(c, i);
      assert c in codes;
      var k :| 0 <= k < |codes| && codes[k] == c;
    }
  }

  /** The label lists exactly the faults with a mask in the field; exactly the uncovered bits are reported. */
  lemma FaultsAreNamed(bits: nat, items: map<int, string>) returns (masks: seq<int>)
    ensures AreFaults(masks, bits, items)
    ensures forall i :: 0 <= i < |masks| ==> masks[i] in items
    ensures DecodedBits(bits, items).0 == if masks == [] then UNKNOWN else Join(LabelsOf(masks, items))
    ensures
      match DecodedBits(bits, items).1
      case Nothing => forall i: nat :: Bit(bits, i) ==> HasName(i, items)
      case Bits(rest) => rest != 0 && forall i: nat :: Bit(rest, i) <==> Bit(bits, i) && !HasName(i, items)
      case _ => false
  {
    var codes := Ascending(items.Keys);
    masks := Named(bits, codes);
    NamedAre(bits, codes);
    forall c: int ensures c in masks <==> c in items && c > 0 && Meet(bits, c) {
      if c > 0 {
        MeetIsAnd(bits, c);
      }
    }
    forall i | 0 <= i < |masks| ensures masks[i] in items {
      assert masks[i] in masks;
    }
    var rest := Rest(bits, codes);
    forall i: nat ensures Bit(rest, i) <==> Bit(bits, i) && !HasName(i, items) {
      RestAre(bits, codes, i);
      CoveredHasName(i, items);
    }
    forall i: nat ensures !Bit(0, i) {
      ZeroHasNoBit(i);
    }
  }

  lemma WordsDecode(raw: seq<Word>, items: map<int, string>)
    requires 1 <= |raw| <= 4
    ensures
      Decoded(D.Text(D.FormatBit(raw)), items) ==
      if forall i :: 0 <= i < |raw| ==> raw[i] == 0 then (OK, Nothing) else DecodedBits(D.Number(raw), items)
  {
    FormatRoundTrip(raw);
    NumberBounds(raw);
    hide BinaryValue, D.Number, D.FormatBit, WithoutSpaces, IsBinary, DecodedBits;
    assert WordPower(|raw|) <= WordPower(4);
    assert ParseBits(WithoutSpaces(D.FormatBit(raw))) == Some(D.Number(raw));
    hide ParseBits;
  }

  /** The register is a fault field of one to four words, and the window holds them. */
  ghost predicate IsField(reg: Register, raw: seq<Word>) {
    reg.typ == BIT && D.Length(reg) <= 4 && D.Length(reg) <= |raw|
  }

  /** A BIT register reads OK when all its words are zero, and as the faults of their number otherwise. */
  lemma FieldDecodes(reg: Register, raw: seq<Word>, items: map<int, string>)
    requires IsField(reg, raw)
    ensures
      var r := D.Decode(reg, raw);
      var words := raw[..D.Length(reg)];
      r.Ok? && r.value.Text? && Decoded(r.value, items) ==
        if forall i :: 0 <= i < |words| ==> words[i] == 0 then (OK, Nothing) else DecodedBits(D.Number(words), items)
  {
    FieldText(reg, raw);
    WordsDecode(raw[..D.Length(reg)], items);
    hide D.Decode, D.FormatBit, Decoded, DecodedBits, D.Number;
  }

  ghost predicate IsLabel(word: string, items: map<int, string>) {
    exists c :: c in items && items[c] == word
  }

  lemma {:induction false} LabelsKeepOut(masks: seq<int>, items: map<int, string>, word: string)
    requires forall i :: 0 <= i < |masks| ==> masks[i] in items
    requires masks != [] && !IsLabel(word, items) && ',' !in word
    ensures Join(LabelsOf(masks, items)) != word
  {
    var parts := LabelsOf(masks, items);
    if |masks| == 1 {
      assert parts == [items[masks[0]]];
      var c := masks[0];
      assert c in items && items[c] == parts[0];
      assert IsLabel(parts[0], items);
    } else {
      JoinOfTwo(parts);
    }
  }

  /** A field reads OK exactly when every word is zero, unless a label itself says OK. */
  lemma OKMeansNoFault(reg: Register, raw: seq<Word>, items: map<int, string>)
    requires IsField(reg, raw) && !IsLabel(OK, items)
    ensures
      D.Decode(reg, raw).Ok? &&
      (Label(D.Decode(reg, raw).value, items) == OK <==> forall i :: 0 <= i < D.Length(reg) ==> raw[i] == 0)
  {
    FieldDecodes(reg, raw, items);
    var words := raw[..D.Length(reg)];
    assert forall i :: 0 <= i < |words| ==> words[i] == raw[i];
    var masks := FaultsAreNamed(D.Number(words), items);
    hide D.Decode, Decoded, DecodedBits, D.Number;
    if masks != [] {
      LabelsKeepOut(masks, items, OK);
    }
  }

  lemma UnknownBits(bits: nat, items: map<int, string>)
    requires !IsLabel(UNKNOWN, items)
    ensures DecodedBits(bits, items).0 == UNKNOWN <==> !exists c: int :: c in items && c > 0 && Meet(bits, c)
  {
    var masks := FaultsAreNamed(bits, items);
    hide DecodedBits;
    if masks != [] {
      LabelsKeepOut(masks, items, UNKNOWN);
      var c := masks[0];
      assert c in masks;
      assert c in items && c > 0 && Meet(bits, c);
    } else {
      forall c: int | c in items && c > 0 ensures !Meet(bits, c) {
        assert c !in masks;
      }
    }
  }

  /** A field reads Unknown exactly when it is not zero and no mask of the catalogue meets it. */
  lemma UnknownMeansUnnamed(reg: Register, raw: seq<Word>, items: map<int, string>)
    requires IsField(reg, raw) && !IsLabel(UNKNOWN, items)
    ensures
      var words := raw[..D.Length(reg)];
      D.Decode(reg, raw).Ok? &&
      (Label(D.Decode(reg, raw).value, items) == UNKNOWN <==>
       (exists i :: 0 <= i < |words| && words[i] != 0) &&
       !exists c: int :: c in items && c > 0 && Meet(D.Number(words), c))
  {
    FieldDecodes(reg, raw, items);
    UnknownBits(D.Number(raw[..D.Length(reg)]), items);
    hide D.Decode, Decoded, DecodedBits, D.Number, Meet;
  }
}
