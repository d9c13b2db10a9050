/**
 The value templates Home Assistant gets for registers with value items, as the trees they denote: a
 generated template turns the English token on the wire into the label of the user's language.
 */
module Templates {
  import opened Options
  import opened Registers
  import D = Decode
  import BitField
  import opened Text
  import opened Labels

  // ---------------------------------------------------------------------------------------------
  // The part of Jinja the templates use
  // ---------------------------------------------------------------------------------------------

  /** What an expression yields; Other stands for numbers, booleans, null and everything nested. */
  datatype JValue =
    | Undefined
    | String(s: string)
    | List(items: seq<string>)
    | Dict(entries: map<string, string>)
    | Other

  datatype Expr =
    | Literal(text: string)
    | Name(name: string)
    | Val
    | Attr(path: string)
    | EmptyList
    | DictOf(pairs: seq<(string, string)>)
    | SplitAt(list: Expr)
    | JoinedBy(parts: Expr)
    | Append(to: Expr, item: Expr)
    | Get(dict: Expr, key: Expr, default: Expr)

  datatype Test = IsDefined | IsString(subject: Expr) | Differs(from: Expr, word: string) | And(tests: seq<Test>)

  datatype Node =
    | Verbatim(text: string)
    | Output(expr: Expr)
    | Set(name: string, expr: Expr)
    | SetAttr(path: string, expr: Expr)
    | If(test: Test, body: seq<Node>, otherwise: seq<Node>)
    | For(target: string, list: Expr, body: seq<Node>)

  /** The message: something that is no JSON object, or an object with (or without) a `val`. */
  datatype Payload = NoObject | Object(val: JValue)

  /** Plain variables are local to a loop body, the attributes of a namespace are not. */
  datatype State = State(payload: Payload, vars: map<string, JValue>, attrs: map<string, JValue>, out: string)

  /** A dictionary display: a later entry for the same key replaces an earlier one. */
  function Entries(pairs: seq<(string, string)>): map<string, string> {
    if pairs == [] then map[]
    else
      var last := pairs[|pairs| - 1];
      Entries(pairs[..|pairs| - 1])[last.0 := last.1]
  }

  /** The value of an expression; None is a template error, such as an attribute of nothing. */
  function Eval(e: Expr, s: State): Option<JValue> {
    match e
    case Literal(text) => Some(String(text))
    case Name(name) => Some(if name in s.vars then s.vars[name] else Undefined)
    case Val => if s.payload.Object? then Some(s.payload.val) else None
    case Attr(path) => if path in s.attrs then Some(s.attrs[path]) else None
    case EmptyList => Some(List([]))
    case DictOf(pairs) => Some(Dict(Entries(pairs)))
    case SplitAt(list) =>
      (match Eval(list, s)
       case Some(String(text)) => Some(List(Split(text)))
       case _ => None)
    case JoinedBy(parts) =>
      (match Eval(parts, s)
       case Some(List(items)) => Some(String(Join(items)))
       case _ => None)
    case Append(to, item) =>
      (match (Eval(to, s), Eval(item, s))
       case (Some(List(items)), Some(String(text))) => Some(List(items + [text]))
       case _ => None)
    case Get(dict, key, default) =>
      (match (Eval(dict, s), Eval(key, s), Eval(default, s))
       case (Some(Dict(entries)), Some(k), Some(other)) =>
         Some(if k.String? && k.s in entries then String(entries[k.s]) else other)
       case _ => None)
  }

  /** `and` stops at the first test that fails. */
  function Holds(test: Test, s: State): Option<bool> {
    match test
    case IsDefined => Some(s.payload.Object?)
    case IsString(subject) => (match Eval(subject, s) case None => None case Some(v) => Some(v.String?))
    case Differs(from, word) => (match Eval(from, s) case None => None case Some(v) => Some(v != String(word)))
    case And(tests) => AllHold(tests, s)
  }

  function AllHold(tests: seq<Test>, s: State): Option<bool> {
    if tests == [] then Some(true)
    else
      match Holds(tests[0], s)
      case Some(true) => AllHold(tests[1..], s)
      case other => other
  }

  function Step(node: Node, s: State): Option<State>
    decreases node, 0
  {
    match node
    case Verbatim(text) => Some(s.(out := s.out + text))
    case Output(expr) =>
      (match Eval(expr, s)
       case Some(String(text)) => Some(s.(out := s.out + text))
       case Some(Undefined) => Some(s)
       case _ => None)
    case Set(name, expr) =>
      (match Eval(expr, s)
       case Some(v) => Some(s.(vars := s.vars[name := v]))
       case None => None)
    case SetAttr(path, expr) =>
      (match Eval(expr, s)
       case Some(v) => Some(s.(attrs := s.attrs[path := v]))
       case None => None)
    case If(test, body, otherwise) =>
      (match Holds(test, s)
       case Some(b) => Exec(if b then body else otherwise, s)
       case None => None)
    case For(target, list, body) =>
      (match Eval(list, s)
       case Some(List(items)) => Loop(target, items, body, s)
       case _ => None)
  }

  function Exec(nodes: seq<Node>, s: State): Option<State>
    decreases nodes, 0
  {
    if nodes == [] then Some(s)
    else
      match Step(nodes[0], s)
      case Some(t) => Exec(nodes[1..], t)
      case None => None
  }

  function Loop(target: string, items: seq<string>, body: seq<Node>, s: State): Option<State>
    decreases body, 1 + |items|
  {
    if items == [] then Some(s)
    else
      match Exec(body, s.(vars := s.vars[target := String(items[0])]))
      case Some(t) => Loop(target, items[1..], body, t.(vars := s.vars))
      case None => None
  }

  /** The text the template renders for the message, None when it fails. */
  function Render(nodes: seq<Node>, payload: Payload): Option<string> {
    match Exec(nodes, State(payload, map[], map[], ""))
    case Some(t) => Some(t.out)
    case None => None
  }

  // ---------------------------------------------------------------------------------------------
  // The options of a register
  // ---------------------------------------------------------------------------------------------

  datatype Localized = Localized(english: string, german: string)

  datatype Enum = Enum(codes: seq<string>, labels: map<string, Localized>)
  {
    function LabelIn(token: string, lang: string): string {
      if token !in labels then token
      else if lang == "de" && labels[token].german != "" then labels[token].german
      else labels[token].english
    }
  }

  function ItemsIn(reg: Register, lang: string): map<int, string>
    ensures ItemsIn(reg, lang).Keys == reg.Items().Keys
  {
    if reg.items == None then map[] else reg.LocalizedValueItems(lang).value
  }

  function EnumOf(reg: Register, codes: seq<int>): Enum
    requires forall i :: 0 <= i < |codes| ==> codes[i] in reg.Items()
  {
    if codes == [] then Enum([], map[])
    else
      var c := codes[|codes| - 1];
      var e := EnumOf(reg, codes[..|codes| - 1]);
      var token := reg.Items()[c];
      Enum(e.codes + [token], e.labels[token := Localized(token, ItemsIn(reg, "de")[c])])
  }

  ghost function ValueItems(reg: Register): Enum {
    var codes := Ascending(reg.Items().Keys);
    assert forall i :: 0 <= i < |codes| ==> codes[i] in codes;
    EnumOf(reg, codes)
  }

  method ValueItemsEnum(reg: Register, extra: seq<string>) returns (e: Enum)
    ensures e == Enum(ValueItems(reg).codes + extra, ValueItems(reg).labels)
  {
    var items := reg.Items();
    var codes := SortedKeys(items);
    assert forall i :: 0 <= i < |codes| ==> codes[i] in codes;
    e := Enum([], map[]);
    var de := ItemsIn(reg, "de");
    for i := 0 to |codes|
      invariant e == EnumOf(reg, codes[..i])
    {
      var token := items[codes[i]];
      assert codes[..i + 1][..i] == codes[..i];
      e := Enum(e.codes + [token], e.labels[token := Localized(token, de[codes[i]])]);
    }
    assert codes[..|codes|] == codes;
    e := e.(codes := e.codes + extra);
  }

  /** Each token once for every code that has it, with its label. */
  function Pairs(e: Enum, lang: string): seq<(string, string)> {
    seq(|e.codes|, i requires 0 <= i < |e.codes| => (e.codes[i], e.LabelIn(e.codes[i], lang)))
  }

  const GUARD := And([IsDefined, IsString(Val), Differs(Val, ""), Differs(Val, UNKNOWN)])

  const LOOKUP := Get(Name("m"), Name("t"), Name("t"))

  const TRANSLATE := [SetAttr("ns.out", Append(Attr("ns.out"), LOOKUP))]

  const TRANSLATED := [
    SetAttr("ns.out", EmptyList),
    For("t", SplitAt(Val), TRANSLATE),
    Output(JoinedBy(Attr("ns.out")))]

  predicate AllSame(pairs: seq<(string, string)>) {
    forall i :: 0 <= i < |pairs| ==> pairs[i].0 == pairs[i].1
  }

  function BitFieldTemplate(pairs: seq<(string, string)>): seq<Node> {
    if AllSame(pairs) then [If(GUARD, [Output(Val)], [Verbatim("None")])]
    else [Set("m", DictOf(pairs)), If(GUARD, TRANSLATED, [Verbatim("None")])]
  }

  function EnumTemplate(pairs: seq<(string, string)>): seq<Node> {
    [Set("m", DictOf(pairs)),
     If(And([IsDefined, IsString(Val)]), [Output(Get(Name("m"), Val, Literal("None")))], [Verbatim("None")])]
  }

  /** No template for a register that is no BIT field or has no value items. */
  method BitFieldValueTemplate(reg: Register, lang: string) returns (t: Option<seq<Node>>)
    ensures
      t == if reg.typ != BIT || |reg.Items()| == 0 then None
           else Some(BitFieldTemplate(Pairs(ValueItems(reg), lang)))
  {
    if reg.typ != BIT || |reg.Items()| == 0 {
      return None;
    }
    var e := ValueItemsEnum(reg, []);
    assert e.codes == ValueItems(reg).codes;
    var pairs: seq<(string, string)> := [];
    var differs := false;
    for i := 0 to |e.codes|
      invariant pairs == Pairs(e, lang)[..i]
      invariant differs <==> !AllSame(pairs)
    {
      var token := e.codes[i];
      var text := e.LabelIn(token, lang);
      differs := differs || text != token;
      ghost var before := pairs;
      pairs := pairs + [(token, text)];
      assert forall k :: 0 <= k < |before| ==> pairs[k] == before[k];
      assert pairs[|before|].0 == token && pairs[|before|].1 == text;
    }
    assert pairs == Pairs(e, lang);
    if !differs {
      return Some([If(GUARD, [Output(Val)], [Verbatim("None")])]);
    }
    return Some([Set("m", DictOf(pairs)), If(GUARD, TRANSLATED, [Verbatim("None")])]);
  }

  method EnumValueTemplate(e: Enum, lang: string) returns (t: Option<seq<Node>>)
    ensures t == if e.codes == [] then None else Some(EnumTemplate(Pairs(e, lang)))
  {
    if e.codes == [] {
      return None;
    }
    var pairs: seq<(string, string)> := [];
    for i := 0 to |e.codes|
      invariant pairs == Pairs(e, lang)[..i]
    {
      pairs := pairs + [(e.codes[i], e.LabelIn(e.codes[i], lang))];
    }
    assert pairs == Pairs(e, lang);
    return Some(EnumTemplate(pairs));
  }

  // ---------------------------------------------------------------------------------------------
  // What the templates show
  // ---------------------------------------------------------------------------------------------

  function Translation(word: string, entries: map<string, string>): string {
    if word in entries then entries[word] else word
  }

  function Translated(words: seq<string>, entries: map<string, string>): seq<string> {
    seq(|words|, i requires 0 <= i < |words| => Translation(words[i], entries))
  }

  lemma ExecOne(node: Node, s: State)
    ensures Exec([node], s) == Step(node, s)
  {
    assert [node][1..] == [];
    var r := Step(node, s);
    if r.Some? {
      assert Exec([], r.value) == r;
    }
  }

  /** The loop appends the label of every word to the namespace's list, and touches nothing else. */
  lemma {:induction false} LoopTranslates(words: seq<string>, done: seq<string>, entries: map<string, string>, s: State)
    requires "m" in s.vars && s.vars["m"] == Dict(entries)
    requires "ns.out" in s.attrs && s.attrs["ns.out"] == List(done)
    ensures
      Loop("t", words, TRANSLATE, s) ==
      Some(s.(attrs := s.attrs["ns.out" := List(done + Translated(words, entries))]))
    decreases |words|
  {
    if words == [] {
      assert done + Translated(words, entries) == done;
      assert s.attrs["ns.out" := List(done)] == s.attrs;
    } else {
      var text := Translation(words[0], entries);
      var inner := s.(vars := s.vars["t" := String(words[0])]);
      BodyTranslates(words[0], done, entries, inner);
      var next := s.(attrs := s.attrs["ns.out" := List(done + [text])]);
      assert Exec(TRANSLATE, inner).value.(vars := s.vars) == next;
      LoopTranslates(words[1..], done + [text], entries, next);
      assert done + [text] + Translated(words[1..], entries) == done + Translated(words, entries);
      assert next.attrs["ns.out" := List(done + Translated(words, entries))] ==
        s.attrs["ns.out" := List(done + Translated(words, entries))];
    }
  }

  lemma BodyTranslates(word: string, done: seq<string>, entries: map<string, string>, s: State)
    requires "m" in s.vars && s.vars["m"] == Dict(entries)
    requires "t" in s.vars && s.vars["t"] == String(word)
    requires "ns.out" in s.attrs && s.attrs["ns.out"] == List(done)
    ensures
      Exec(TRANSLATE, s) == Some(s.(attrs := s.attrs["ns.out" := List(done + [Translation(word, entries)])]))
  {
    var append := Append(Attr("ns.out"), LOOKUP);
    assert Eval(LOOKUP, s) == Some(String(Translation(word, entries)));
    assert Eval(append, s) == Some(List(done + [Translation(word, entries)]));
    ExecOne(SetAttr("ns.out", append), s);
  }

  /** A message with a readable state: a text other than the empty one and Unknown. */
  predicate Readable(payload: Payload) {
    payload.Object? && payload.val.String? && payload.val.s != "" && payload.val.s != UNKNOWN
  }

  lemma GuardHolds(s: State)
    ensures Holds(GUARD, s) == Some(Readable(s.payload))
  {
    var tests := GUARD.tests;
    assert tests[1..][1..][1..][1..] == [];
    assert AllHold(tests, s) == if s.payload.Object? then AllHold(tests[1..], s) else Some(false);
    if s.payload.Object? {
      var isString := s.payload.val.String?;
      assert tests[1..][0] == IsString(Val);
      assert AllHold(tests[1..], s) == if isString then AllHold(tests[1..][1..], s) else Some(false);
      assert tests[1..][1..][0] == Differs(Val, "") && tests[1..][1..][1..][0] == Differs(Val, UNKNOWN);
      assert AllHold(tests[1..][1..], s) ==
        if s.payload.val != String("") then AllHold(tests[1..][1..][1..], s) else Some(false);
      assert AllHold(tests[1..][1..][1..], s) == Some(s.payload.val != String(UNKNOWN));
    }
  }

  lemma LoopNodeTranslates(s: State, entries: map<string, string>)
    requires s.payload.Object? && s.payload.val.String?
    requires "m" in s.vars && s.vars["m"] == Dict(entries)
    requires "ns.out" in s.attrs && s.attrs["ns.out"] == List([])
    ensures
      Step(For("t", SplitAt(Val), TRANSLATE), s) ==
      Some(s.(attrs := s.attrs["ns.out" := List(Translated(Split(s.payload.val.s), entries))]))
  {
    var words := Split(s.payload.val.s);
    assert Eval(SplitAt(Val), s) == Some(List(words));
    LoopTranslates(words, [], entries, s);
    hide Loop, Split;
    assert [] + Translated(words, entries) == Translated(words, entries);
  }

  /** The names of the message, each translated. */
  lemma TranslatedShows(s: State, entries: map<string, string>)
    requires s.payload.Object? && s.payload.val.String?
    requires "m" in s.vars && s.vars["m"] == Dict(entries)
    ensures
      var r := Exec(TRANSLATED, s);
      r.Some? && r.value.out == s.out + Join(Translated(Split(s.payload.val.s), entries))
  {
    hide Loop, Join, Split, Translated;
    var cleared := s.(attrs := s.attrs["ns.out" := List([])]);
    var after := s.(attrs := s.attrs["ns.out" := List(Translated(Split(s.payload.val.s), entries))]);
    var output := Output(JoinedBy(Attr("ns.out")));
    assert Step(TRANSLATED[0], s) == Some(cleared);
    LoopNodeTranslates(cleared, entries);
    assert cleared.attrs["ns.out" := after.attrs["ns.out"]] == after.attrs;
    ExecOne(output, after);
    assert Eval(JoinedBy(Attr("ns.out")), after) == Some(String(Join(Translated(Split(s.payload.val.s), entries))));
    assert Step(output, after).Some?;
    hide Step;
    assert TRANSLATED[1..][1..] == [output];
    assert Exec(TRANSLATED, s) == Exec(TRANSLATED[1..], cleared);
    assert Exec(TRANSLATED[1..], cleared) == Exec(TRANSLATED[1..][1..], after);
  }

  lemma {:induction false} SameEntries(pairs: seq<(string, string)>)
    requires AllSame(pairs)
    ensures forall k :: k in Entries(pairs) ==> Entries(pairs)[k] == k
  {
    if pairs != [] {
      SameEntries(pairs[..|pairs| - 1]);
    }
  }

  lemma SetThen(pairs: seq<(string, string)>, node: Node, s: State, m: State)
    requires m == s.(vars := s.vars["m" := Dict(Entries(pairs))])
    ensures Exec([Set("m", DictOf(pairs)), node], s) == Step(node, m)
  {
    var nodes := [Set("m", DictOf(pairs)), node];
    assert nodes[1..] == [node];
    assert Eval(DictOf(pairs), s) == Some(Dict(Entries(pairs)));
    assert Step(nodes[0], s) == Some(m);
    ExecOne(node, m);
    hide Step;
  }

  lemma PlainShows(payload: Payload, s: State)
    requires s == State(payload, map[], map[], "")
    ensures
      var r := Exec([If(GUARD, [Output(Val)], [Verbatim("None")])], s);
      r.Some? && r.value.out == if Readable(payload) then payload.val.s else "None"
  {
    GuardHolds(s);
    var node := If(GUARD, [Output(Val)], [Verbatim("None")]);
    ExecOne(node, s);
    ExecOne(Output(Val), s);
    ExecOne(Verbatim("None"), s);
    hide Exec, Holds;
    assert Step(node, s) == Exec(if Readable(payload) then [Output(Val)] else [Verbatim("None")], s);
    assert "" + "None" == "None";
    if Readable(payload) {
      assert "" + payload.val.s == payload.val.s;
    }
  }

  lemma TranslatingShows(pairs: seq<(string, string)>, payload: Payload, s: State)
    requires s == State(payload, map[], map[], "")
    ensures
      var r := Exec([Set("m", DictOf(pairs)), If(GUARD, TRANSLATED, [Verbatim("None")])], s);
      && r.Some?
      && r.value.out == if Readable(payload) then Join(Translated(Split(payload.val.s), Entries(pairs))) else "None"
  {
    var m := s.(vars := s.vars["m" := Dict(Entries(pairs))]);
    var node := If(GUARD, TRANSLATED, [Verbatim("None")]);
    SetThen(pairs, node, s, m);
    GuardHolds(m);
    ExecOne(Verbatim("None"), m);
    hide Exec, Holds, Split, Entries, Translated, Join;
    assert Step(node, m) == Exec(if Readable(payload) then TRANSLATED else [Verbatim("None")], m);
    assert "" + "None" == "None";
    if Readable(payload) {
      TranslatedShows(m, Entries(pairs));
      var text := Join(Translated(Split(payload.val.s), Entries(pairs)));
      assert "" + text == text;
    }
  }

  /** The template never fails, and both its forms translate a readable message name by name. */
  lemma BitFieldShows(pairs: seq<(string, string)>, payload: Payload)
    ensures
      Render(BitFieldTemplate(pairs), payload) ==
      Some(if Readable(payload) then Join(Translated(Split(payload.val.s), Entries(pairs))) else "None")
  {
    var s := State(payload, map[], map[], "");
    hide Exec, Entries, Split, Join;
    if AllSame(pairs) {
      PlainShows(payload, s);
      if Readable(payload) {
        SameEntries(pairs);
        var words := Split(payload.val.s);
        assert Translated(words, Entries(pairs)) == words;
        JoinSplit(payload.val.s);
      }
    } else {
      TranslatingShows(pairs, payload, s);
    }
  }

  // ---------------------------------------------------------------------------------------------
  // Wire value, web value and template agree
  // ---------------------------------------------------------------------------------------------

  /** A code's label in a language: the German one where German is asked for and given, the English one elsewhere. */
  lemma LabelOfLanguage(reg: Register, lang: string, c: int)
    requires c in reg.Items()
    ensures
      ItemsIn(reg, lang)[c] ==
      if lang == "de" && c in reg.itemsDE && reg.itemsDE[c] != "" then reg.itemsDE[c] else reg.Items()[c]
  {
  }

  /** Codes with the same English label have the same label in the other language too. */
  ghost predicate Consistent(items: map<int, string>, localized: map<int, string>)
    requires localized.Keys == items.Keys
  {
    forall c, d :: c in items && d in items && items[c] == items[d] ==> localized[c] == localized[d]
  }

  /** A token's entry is that of some code with that token. */
  lemma {:induction false} EnumLabels(reg: Register, codes: seq<int>)
    requires forall i :: 0 <= i < |codes| ==> codes[i] in reg.Items()
    ensures EnumOf(reg, codes).codes == LabelsOf(codes, reg.Items())
    ensures
      forall token :: token in EnumOf(reg, codes).labels ==>
        exists d :: d in reg.Items() && reg.Items()[d] == token &&
          EnumOf(reg, codes).labels[token] == Localized(token, ItemsIn(reg, "de")[d])
    ensures forall i :: 0 <= i < |codes| ==> reg.Items()[codes[i]] in EnumOf(reg, codes).labels
  {
    if codes != [] {
      EnumLabels(reg, codes[..|codes| - 1]);
    }
  }

  lemma LabelInItems(reg: Register, lang: string, c: int)
    requires c in reg.Items() && Consistent(reg.Items(), ItemsIn(reg, lang))
    ensures ValueItems(reg).LabelIn(reg.Items()[c], lang) == ItemsIn(reg, lang)[c]
  {
    var codes := Ascending(reg.Items().Keys);
    assert c in codes;
    assert forall i :: 0 <= i < |codes| ==> codes[i] in codes;
    EnumLabels(reg, codes);
    hide EnumOf;
    var token := reg.Items()[c];
    var d :| d in reg.Items() && reg.Items()[d] == token &&
      ValueItems(reg).labels[token] == Localized(token, ItemsIn(reg, "de")[d]);
  }

  lemma {:induction false} EntriesAre(pairs: seq<(string, string)>, e: Enum, lang: string)
    requires forall i :: 0 <= i < |pairs| ==> pairs[i].1 == e.LabelIn(pairs[i].0, lang)
    ensures forall k :: k in Entries(pairs) <==> exists i :: 0 <= i < |pairs| && pairs[i].0 == k
    ensures forall k :: k in Entries(pairs) ==> Entries(pairs)[k] == e.LabelIn(k, lang)
  {
    if pairs != [] {
      EntriesAre(pairs[..|pairs| - 1], e, lang);
    }
  }

  /** The tokens of the enum are the English labels of the codes. */
  lemma TokensAreLabels(reg: Register, word: string)
    ensures
      var tokens := ValueItems(reg).codes;
      (exists i :: 0 <= i < |tokens| && tokens[i] == word) <==> IsLabel(word, reg.Items())
  {
    var codes := Ascending(reg.Items().Keys);
    assert forall i :: 0 <= i < |codes| ==> codes[i] in codes;
    EnumLabels(reg, codes);
    hide EnumOf;
    if IsLabel(word, reg.Items()) {
      var c :| c in reg.Items() && reg.Items()[c] == word;
      assert c in codes;
      var i :| 0 <= i < |codes| && codes[i] == c;
      assert ValueItems(reg).codes[i] == word;
    }
  }

  lemma DictionaryHas(reg: Register, lang: string, word: string)
    ensures word in Entries(Pairs(ValueItems(reg), lang)) <==> IsLabel(word, reg.Items())
  {
    TokensAreLabels(reg, word);
    hide Entries, ValueItems, IsLabel;
    var e := ValueItems(reg);
    var pairs := Pairs(e, lang);
    EntriesAre(pairs, e, lang);
    assert forall i :: 0 <= i < |pairs| ==> pairs[i].0 == e.codes[i];
    if i :| 0 <= i < |e.codes| && e.codes[i] == word {
      assert pairs[i].0 == word;
    }
  }

  /** The dictionary of the generated templates maps an English label to the label of the language. */
  lemma DictionaryTranslates(reg: Register, lang: string, c: int)
    requires c in reg.Items() && Consistent(reg.Items(), ItemsIn(reg, lang))
    ensures
      var entries := Entries(Pairs(ValueItems(reg), lang));
      reg.Items()[c] in entries && entries[reg.Items()[c]] == ItemsIn(reg, lang)[c]
  {
    var pairs := Pairs(ValueItems(reg), lang);
    EntriesAre(pairs, ValueItems(reg), lang);
    DictionaryHas(reg, lang, reg.Items()[c]);
    LabelInItems(reg, lang, c);
    hide Entries, EnumOf, ValueItems, Ascending;
    assert IsLabel(reg.Items()[c], reg.Items());
  }

  /** Labels that can stand in a list, and cannot be taken for one of the bridge's own words. */
  ghost predicate PlainLabels(items: map<int, string>) {
    && (forall c :: c in items ==> FreeOfSeparator(items[c]))
    && !IsLabel("", items) && !IsLabel(OK, items) && !IsLabel(UNKNOWN, items)
  }

  lemma FaultsTranslate(reg: Register, lang: string, masks: seq<int>)
    requires Consistent(reg.Items(), ItemsIn(reg, lang)) && PlainLabels(reg.Items())
    requires masks != [] && forall i :: 0 <= i < |masks| ==> masks[i] in reg.Items()
    ensures
      var wire := Join(LabelsOf(masks, reg.Items()));
      && wire != "" && wire != UNKNOWN
      && Join(Translated(Split(wire), Entries(Pairs(ValueItems(reg), lang)))) ==
         Join(LabelsOf(masks, ItemsIn(reg, lang)))
  {
    var tokens := LabelsOf(masks, reg.Items());
    var entries := Entries(Pairs(ValueItems(reg), lang));
    LabelsKeepOut(masks, reg.Items(), "");
    LabelsKeepOut(masks, reg.Items(), UNKNOWN);
    forall p | p in tokens ensures FreeOfSeparator(p) {
      var i :| 0 <= i < |tokens| && tokens[i] == p;
      var c := masks[i];
      assert c in reg.Items() && FreeOfSeparator(reg.Items()[c]);
    }
    SplitJoin(tokens);
    forall i | 0 <= i < |masks| ensures Translation(tokens[i], entries) == ItemsIn(reg, lang)[masks[i]] {
      DictionaryTranslates(reg, lang, masks[i]);
    }
    hide Entries, ValueItems, Join, Split;
    assert Translated(tokens, entries) == LabelsOf(masks, ItemsIn(reg, lang));
  }

  lemma WordTranslates(reg: Register, lang: string, word: string)
    requires FreeOfSeparator(word)
    ensures
      var entries := Entries(Pairs(ValueItems(reg), lang));
      Join(Translated(Split(word), entries)) == Translation(word, entries)
  {
    assert [word][0] == word;
    SplitJoin([word]);
    assert Join([word]) == word;
    hide Entries, ValueItems, Split;
    var entries := Entries(Pairs(ValueItems(reg), lang));
    assert Translated([word], entries) == [Translation(word, entries)];
  }

  /** The wire carries English; reading it through the dictionary gives the label of the language. */
  lemma WireTranslates(reg: Register, lang: string, val: D.Value)
    requires Consistent(reg.Items(), ItemsIn(reg, lang)) && PlainLabels(reg.Items())
    ensures Label(val, reg.Items()) != ""
    ensures
      Label(val, reg.Items()) != UNKNOWN ==>
        Join(Translated(Split(Label(val, reg.Items())), Entries(Pairs(ValueItems(reg), lang)))) ==
        Label(val, ItemsIn(reg, lang))
  {
    var items, localized := reg.Items(), ItemsIn(reg, lang);
    hide Entries, ValueItems, Split, Join, Translated;
    if Label(val, items) == OK {
      DictionaryHas(reg, lang, OK);
      WordTranslates(reg, lang, OK);
    }
    if val.Text? {
      var flat := BitField.WithoutSpaces(val.text);
      var parsed := BitField.ParseBits(flat);
      if flat != "" && parsed.Some? && parsed.value != 0 {
        BitsTranslate(reg, lang, parsed.value);
      }
    } else {
      var c := ToInt(val).value;
      if c in items {
        DictionaryTranslates(reg, lang, c);
        WordTranslates(reg, lang, items[c]);
        assert IsLabel(items[c], items);
      }
    }
  }

  lemma BitsTranslate(reg: Register, lang: string, bits: nat)
    requires Consistent(reg.Items(), ItemsIn(reg, lang)) && PlainLabels(reg.Items())
    ensures
      var wire := DecodedBits(bits, reg.Items()).0;
      && wire != "" && wire != OK
      && (wire != UNKNOWN ==>
            Join(Translated(Split(wire), Entries(Pairs(ValueItems(reg), lang)))) ==
            DecodedBits(bits, ItemsIn(reg, lang)).0)
  {
    var masks := Named(bits, Ascending(reg.Items().Keys));
    var wire := DecodedBits(bits, reg.Items()).0;
    if masks != [] {
      assert forall i :: 0 <= i < |masks| ==> masks[i] in reg.Items() by {
        NamedAre(bits, Ascending(reg.Items().Keys));
        assert forall i :: 0 <= i < |masks| ==> masks[i] in masks;
      }
      FaultsTranslate(reg, lang, masks);
      LabelsKeepOut(masks, reg.Items(), OK);
    }
  }

  /**
   A BIT field reads the same in Home Assistant, where the template translates the English wire value,
   as in the web UI, which names the faults in the language itself; an Unknown field is unknown there.
   */
  lemma TemplateShowsWebLabel(reg: Register, lang: string, val: D.Value)
    requires Consistent(reg.Items(), ItemsIn(reg, lang)) && PlainLabels(reg.Items())
    ensures
      var wire := Label(val, reg.Items());
      var web := Label(val, ItemsIn(reg, lang));
      Render(BitFieldTemplate(Pairs(ValueItems(reg), lang)), Object(String(wire))) ==
      Some(if wire == UNKNOWN then "None" else web)
  {
    BitFieldShows(Pairs(ValueItems(reg), lang), Object(String(Label(val, reg.Items()))));
    WireTranslates(reg, lang, val);
    hide Render, BitFieldTemplate, Label, Join, Split, Translated, Entries, ValueItems;
  }

  lemma EnumGuard(s: State)
    ensures
      Holds(And([IsDefined, IsString(Val)]), s) == Some(s.payload.Object? && s.payload.val.String?)
  {
    var tests := [IsDefined, IsString(Val)];
    assert tests[1..] == [IsString(Val)] && tests[1..][1..] == [];
    assert AllHold(tests, s) == if s.payload.Object? then AllHold(tests[1..], s) else Some(false);
    if s.payload.Object? {
      var isString := s.payload.val.String?;
      assert AllHold(tests[1..], s) == if isString then AllHold(tests[1..][1..], s) else Some(false);
    }
  }

  /** The template never fails; it shows the label of a token, and None for everything else. */
  lemma EnumShows(pairs: seq<(string, string)>, payload: Payload)
    ensures
      Render(EnumTemplate(pairs), payload) ==
      Some(if payload.Object? && payload.val.String? && payload.val.s in Entries(pairs)
           then Entries(pairs)[payload.val.s] else "None")
  {
    var s := State(payload, map[], map[], "");
    var m := s.(vars := s.vars["m" := Dict(Entries(pairs))]);
    var output := Output(Get(Name("m"), Val, Literal("None")));
    var node := If(And([IsDefined, IsString(Val)]), [output], [Verbatim("None")]);
    SetThen(pairs, node, s, m);
    EnumGuard(m);
    ExecOne(output, m);
    ExecOne(Verbatim("None"), m);
    hide Exec, Holds, Entries;
    var readable := payload.Object? && payload.val.String?;
    assert Step(node, m) == Exec(if readable then [output] else [Verbatim("None")], m);
    assert "" + "None" == "None";
    if readable {
      var text := if payload.val.s in Entries(pairs) then Entries(pairs)[payload.val.s] else "None";
      assert Eval(output.expr, m) == Some(String(text));
      assert "" + text == text;
    }
  }

  /** A code shows its label in the language, a code without one shows as unknown. */
  lemma EnumShowsLabel(reg: Register, lang: string, val: D.Value, code: int)
    requires Consistent(reg.Items(), ItemsIn(reg, lang)) && !IsLabel(UNKNOWN, reg.Items())
    requires Carries(val, code)
    ensures
      Render(EnumTemplate(Pairs(ValueItems(reg), lang)), Object(String(Label(val, reg.Items())))) ==
      Some(if code in reg.Items() then ItemsIn(reg, lang)[code] else "None")
  {
    CodesAreLabelled(val, code, reg.Items());
    EnumShows(Pairs(ValueItems(reg), lang), Object(String(Label(val, reg.Items()))));
    DictionaryHas(reg, lang, UNKNOWN);
    if code in reg.Items() {
      DictionaryTranslates(reg, lang, code);
    }
    hide Render, EnumTemplate, Entries, ValueItems, Pairs, Carries;
  }

  /** Every label shows in the language exactly when no two codes share a token but not its translation. */
  lemma AllLabelsShow(reg: Register, lang: string)
    requires !IsLabel(UNKNOWN, reg.Items())
    ensures
      Consistent(reg.Items(), ItemsIn(reg, lang)) <==>
      forall c :: c in reg.Items() ==>
        Render(EnumTemplate(Pairs(ValueItems(reg), lang)), Object(String(reg.Items()[c]))) ==
        Some(ItemsIn(reg, lang)[c])
  {
    hide Render, EnumTemplate, Entries, ValueItems, Pairs;
    if Consistent(reg.Items(), ItemsIn(reg, lang)) {
      forall c | c in reg.Items() ensures
          Render(EnumTemplate(Pairs(ValueItems(reg), lang)), Object(String(reg.Items()[c]))) ==
          Some(ItemsIn(reg, lang)[c]) {
        EnumShowsLabel(reg, lang, D.Int(c), c);
        CodesAreLabelled(D.Int(c), c, reg.Items());
      }
    }
  }
}
