/** Reading a group of registers in clusters. */
module Reader {
  import opened Options
  import opened Registers
  import opened Clusters
  import D = Decode

  /**
   The device at one poll: its memory, and whether the read that begins at an address succeeds. A
   successful read returns exactly the words asked for.
   */
  datatype Device = Device(memory: int -> Word, answers: int -> bool)

  function Words(dev: Device, start: int, count: int): (raw: seq<Word>)
    ensures |raw| == if count < 0 then 0 else count
  {
    seq<Word>(if count < 0 then 0 else count, i requires 0 <= i => dev.memory(start + i))
  }

  datatype Error = ReadFailed(start: int) | OutsideCluster(address: int) | DecodeFailed(address: int)

  /** A value to publish, or why there is none. */
  datatype Item = Value(key: string, value: D.Value) | Failure(error: Error)

  /** What one member yields from the words of its cluster. */
  function DecodeMember(c: Cluster, raw: seq<Word>, m: Register): Item {
    var offset := m.address - c.start;
    var end := offset + D.Length(m);
    if offset < 0 || end > |raw| then Failure(OutsideCluster(m.address)) else
      match D.Decode(m, raw[offset..end])
      case Ok(v) => Value(m.OutputKey(), v)
      case Err(_) => Failure(DecodeFailed(m.address))
  }

  function DecodeMembers(c: Cluster, raw: seq<Word>, ms: seq<Register>): seq<Item> {
    if ms == [] then [] else DecodeMembers(c, raw, ms[..|ms| - 1]) + [DecodeMember(c, raw, ms[|ms| - 1])]
  }

  function ReadCluster(dev: Device, c: Cluster): seq<Item> {
    if dev.answers(c.start) then DecodeMembers(c, Words(dev, c.start, c.count), c.members)
    else [Failure(ReadFailed(c.start))]
  }

  /** Everything a group read yields, in order. */
  function ReadClusters(dev: Device, cs: seq<Cluster>): seq<Item> {
    if cs == [] then [] else ReadClusters(dev, cs[..|cs| - 1]) + ReadCluster(dev, cs[|cs| - 1])
  }

  /** The map the coordinator sees: of two values with one key the later one. */
  function Published(items: seq<Item>): map<string, D.Value> {
    if items == [] then map[] else
      var out := Published(items[..|items| - 1]);
      match items[|items| - 1]
      case Value(k, v) => out[k := v]
      case Failure(_) => out
  }

  function Errors(items: seq<Item>): seq<Error> {
    if items == [] then [] else
      Errors(items[..|items| - 1]) + match items[|items| - 1] case Value(_, _) => [] case Failure(e) => [e]
  }

  lemma {:induction false} PublishedAlso(xs: seq<Item>, x: Item)
    ensures Published(xs + [x]) == match x case Value(k, v) => Published(xs)[k := v] case Failure(_) => Published(xs)
    ensures Errors(xs + [x]) == Errors(xs) + match x case Value(_, _) => [] case Failure(e) => [e]
  {
    assert (xs + [x])[..|xs|] == xs;
  }

  method DecodeOne(c: Cluster, raw: seq<Word>, m: Register) returns (item: Item)
    ensures item == DecodeMember(c, raw, m)
  {
    hide D.Decode;
    var length := m.length;
    if length <= 0 {
      length := 1;
    }
    var offset := m.address - c.start;
    var end := offset + length;
    if offset < 0 || end > |raw| {
      return Failure(OutsideCluster(m.address));
    }
    var decoded := D.Decode(m, raw[offset..end]);
    if decoded.Err? {
      return Failure(DecodeFailed(m.address));
    }
    return Value(m.OutputKey(), decoded.value);
  }

  /** Adds a cluster's values and errors to those of the items done before. */
  method DecodeClusterInto(c: Cluster, raw: seq<Word>, ghost done: seq<Item>,
                           out: map<string, D.Value>, errs: seq<Error>)
      returns (out': map<string, D.Value>, errs': seq<Error>)
    requires out == Published(done) && errs == Errors(done)
    ensures out' == Published(done + DecodeMembers(c, raw, c.members))
    ensures errs' == Errors(done + DecodeMembers(c, raw, c.members))
  {
    out', errs' := out, errs;
    ghost var items := done;
    hide DecodeMember, Published, Errors;
    assert done + [] == done;
    for n := 0 to |c.members|
      invariant items == done + DecodeMembers(c, raw, c.members[..n])
      invariant out' == Published(items) && errs' == Errors(items)
    {
      var item := DecodeOne(c, raw, c.members[n]);
      PublishedAlso(items, item);
      assert c.members[..n + 1][..n] == c.members[..n];
      assert items + [item] == done + (DecodeMembers(c, raw, c.members[..n]) + [item]);
      items := items + [item];
      match item {
        case Value(key, value) => out' := out'[key := value];
        case Failure(error) => errs' := errs' + [error];
      }
    }
    assert c.members[..|c.members|] == c.members;
  }

  lemma ReadsOneMore(dev: Device, cs: seq<Cluster>, n: nat)
    requires n < |cs|
    ensures ReadClusters(dev, cs[..n + 1]) == ReadClusters(dev, cs[..n]) + ReadCluster(dev, cs[n])
  {
    assert cs[..n + 1][..n] == cs[..n];
  }

  /** Partial results are kept: the map and the errors are independent. */
  method ReadGroup(dev: Device, members: seq<Register>) returns (out: map<string, D.Value>, errs: seq<Error>)
    ensures out == Published(ReadClusters(dev, Pack(ByAddress(Entries(members)), 0)))
    ensures errs == Errors(ReadClusters(dev, Pack(ByAddress(Entries(members)), 0)))
  {
    var clusters := Clusterize(members);
    out, errs := map[], [];
    assert Published([]) == map[] && Errors([]) == [] && ReadClusters(dev, []) == [];
    hide Published, Errors, DecodeMembers, Words, Pack, ByAddress, Entries, ReadClusters;
    for n := 0 to |clusters|
      invariant out == Published(ReadClusters(dev, clusters[..n]))
      invariant errs == Errors(ReadClusters(dev, clusters[..n]))
    {
      var c := clusters[n];
      ReadsOneMore(dev, clusters, n);
      ghost var done := ReadClusters(dev, clusters[..n]);
      if !dev.answers(c.start) {
        PublishedAlso(done, Failure(ReadFailed(c.start)));
        errs := errs + [ReadFailed(c.start)];
        continue;
      }
      var raw := Words(dev, c.start, c.count);
      out, errs := DecodeClusterInto(c, raw, done, out, errs);
    }
    assert clusters[..|clusters|] == clusters;
  }

  // ---------------------------------------------------------------------------------------------
  // Clustered reading refines reading each register alone
  // ---------------------------------------------------------------------------------------------

  /** ReadRegister of a Modbus register whose read succeeds. */
  function ReadAlone(dev: Device, m: Register): D.Result {
    D.Decode(m, Words(dev, m.address, D.Length(m)))
  }

  /** What the loader guarantees about a Modbus register. */
  predicate Loaded(m: Register) {
    LoaderValid(m) && !m.typ.Unknown? && D.TypeFits(m.typ, m.length)
  }

  lemma MemberInWindow(dev: Device, c: Cluster, m: Register)
    requires Tight(c) && m in c.members && Loaded(m)
    ensures
      var offset := m.address - c.start;
      && 0 <= offset && offset + m.length <= c.count
      && Words(dev, c.start, c.count)[offset..offset + m.length] == Words(dev, m.address, m.length)
  {
    var offset := m.address - c.start;
    assert m.address + m.length <= c.start + c.count;
    hide Tight, Loaded;
    assert 0 <= offset && 0 <= m.length && offset + m.length <= c.count;
    var raw, alone := Words(dev, c.start, c.count), Words(dev, m.address, m.length);
    assert raw[offset..offset + m.length] == alone;
  }

  lemma LoadedDecodes(m: Register, raw: seq<Word>)
    requires Loaded(m) && |raw| == m.length
    ensures m.length >= 1 && D.Length(m) == m.length && D.Decode(m, raw).Ok?
  {
    hide D.Decode;
    D.DecodesWhenTypeFits(m, raw);
  }

  lemma DecodedInside(c: Cluster, raw: seq<Word>, m: Register, own: seq<Word>)
    requires
      var offset := m.address - c.start;
      && 0 <= offset && 0 <= D.Length(m) && offset + D.Length(m) <= |raw|
      && raw[offset..offset + D.Length(m)] == own
    requires D.Decode(m, own).Ok?
    ensures DecodeMember(c, raw, m) == Value(m.OutputKey(), D.Decode(m, own).value)
  {
    hide D.Decode, D.Length;
  }

  lemma MemberReadsAlone(dev: Device, c: Cluster, m: Register)
    requires Tight(c) && m in c.members && Loaded(m) && dev.answers(c.start)
    ensures ReadAlone(dev, m).Ok?
    ensures DecodeMember(c, Words(dev, c.start, c.count), m) == Value(m.OutputKey(), ReadAlone(dev, m).value)
  {
    MemberInWindow(dev, c, m);
    assert m.length >= 1;
    var own := Words(dev, m.address, m.length);
    LoadedDecodes(m, own);
    hide Tight, Loaded, DecodeMember, D.Decode, D.Length;
    DecodedInside(c, Words(dev, c.start, c.count), m, own);
  }

  lemma {:induction false} MembersReadAlone(dev: Device, c: Cluster, ms: seq<Register>)
    requires Tight(c) && dev.answers(c.start) && forall m :: m in ms ==> m in c.members && Loaded(m)
    ensures
      var items := DecodeMembers(c, Words(dev, c.start, c.count), ms);
      && |items| == |ms|
      && (forall i :: 0 <= i < |ms| ==>
            ReadAlone(dev, ms[i]).Ok? && items[i] == Value(ms[i].OutputKey(), ReadAlone(dev, ms[i]).value))
  {
    hide DecodeMember, ReadAlone, Tight, Loaded;
    if ms != [] {
      MembersReadAlone(dev, c, ms[..|ms| - 1]);
      assert ms[|ms| - 1] in ms;
      MemberReadsAlone(dev, c, ms[|ms| - 1]);
    }
  }

  /** The register's own cluster was read. */
  ghost predicate Answered(dev: Device, cs: seq<Cluster>, m: Register) {
    exists c :: c in cs && m in c.members && dev.answers(c.start)
  }

  /** A value in `items` is the one `m` has when read alone. */
  ghost predicate YieldOf(dev: Device, cs: seq<Cluster>, item: Item, m: Register) {
    && Answered(dev, cs, m)
    && ReadAlone(dev, m).Ok?
    && item == Value(m.OutputKey(), ReadAlone(dev, m).value)
  }

  ghost predicate AllReadable(cs: seq<Cluster>) {
    forall c :: c in cs ==> Tight(c) && forall m :: m in c.members ==> Loaded(m)
  }

  lemma {:induction false} ItemsAreYields(dev: Device, cs: seq<Cluster>)
    requires AllReadable(cs)
    ensures forall x :: x in ReadClusters(dev, cs) && x.Value? ==> exists m :: YieldOf(dev, cs, x, m)
    ensures forall m :: Answered(dev, cs, m) ==>
      ReadAlone(dev, m).Ok? && Value(m.OutputKey(), ReadAlone(dev, m).value) in ReadClusters(dev, cs)
    ensures (forall x :: x in ReadClusters(dev, cs) ==> x.Value?) <==> forall c :: c in cs ==> dev.answers(c.start)
  {
    if cs != [] {
      var init, c := cs[..|cs| - 1], cs[|cs| - 1];
      assert cs == init + [c];
      assert c in cs;
      ItemsAreYields(dev, init);
      var items := ReadCluster(dev, c);
      if dev.answers(c.start) {
        MembersReadAlone(dev, c, c.members);
      }
      ClusterYields(dev, cs, c);
      forall x | x in ReadClusters(dev, cs) && x.Value? ensures exists m :: YieldOf(dev, cs, x, m) {
        if x in ReadClusters(dev, init) {
          var m :| YieldOf(dev, init, x, m);
          assert YieldOf(dev, cs, x, m);
        } else {
          assert x in items;
        }
      }
    }
  }

  lemma ClusterYields(dev: Device, cs: seq<Cluster>, c: Cluster)
    requires AllReadable(cs) && c in cs
    ensures forall x :: x in ReadCluster(dev, c) && x.Value? ==> exists m :: YieldOf(dev, cs, x, m)
    ensures dev.answers(c.start) ==> forall m :: m in c.members ==>
      ReadAlone(dev, m).Ok? && Value(m.OutputKey(), ReadAlone(dev, m).value) in ReadCluster(dev, c)
    ensures (forall x :: x in ReadCluster(dev, c) ==> x.Value?) <==> dev.answers(c.start)
  {
    var items := ReadCluster(dev, c);
    if dev.answers(c.start) {
      MembersReadAlone(dev, c, c.members);
      forall x | x in items ensures exists m :: YieldOf(dev, cs, x, m) {
        var i :| 0 <= i < |items| && items[i] == x;
        assert YieldOf(dev, cs, x, c.members[i]);
      }
      forall m | m in c.members
        ensures ReadAlone(dev, m).Ok? && Value(m.OutputKey(), ReadAlone(dev, m).value) in items
      {
        var i :| 0 <= i < |c.members| && c.members[i] == m;
        assert items[i] in items;
      }
    } else {
      assert Failure(ReadFailed(c.start)) in items;
    }
  }

  lemma {:induction false} PublishedAreItems(items: seq<Item>)
    ensures forall k :: k in Published(items) <==> exists x :: x in items && x.Value? && x.key == k
    ensures forall k :: k in Published(items) ==> Value(k, Published(items)[k]) in items
  {
    if items != [] {
      var init, last := items[..|items| - 1], items[|items| - 1];
      assert items == init + [last];
      PublishedAreItems(init);
      assert last in items;
      forall k ensures k in Published(items) <==> exists x :: x in items && x.Value? && x.key == k {
        if k in Published(init) {
          var x :| x in init && x.Value? && x.key == k;
          assert x in items;
        }
      }
    }
  }

  lemma {:induction false} ErrorsAreFailures(items: seq<Item>)
    ensures Errors(items) == [] <==> forall x :: x in items ==> x.Value?
  {
    if items != [] {
      var init, last := items[..|items| - 1], items[|items| - 1];
      assert items == init + [last];
      ErrorsAreFailures(init);
    }
  }

  /** Item i is the last one with key k. */
  ghost predicate LastWithKey(items: seq<Item>, k: string, i: nat) {
    i < |items| && items[i].Value? && items[i].key == k
    && forall j :: i < j < |items| ==> !(items[j].Value? && items[j].key == k)
  }

  /** Of several values with one key the last one is published. */
  lemma {:induction false} PublishedIsLast(items: seq<Item>, k: string, i: nat)
    requires LastWithKey(items, k, i)
    ensures k in Published(items) && Published(items)[k] == items[i].value
  {
    if i < |items| - 1 {
      var init := items[..|items| - 1];
      assert forall j :: 0 <= j < |init| ==> init[j] == items[j];
      PublishedIsLast(init, k, i);
    }
  }

  ghost predicate DistinctKeys(ms: seq<Register>) {
    forall m, n :: m in ms && n in ms && m.OutputKey() == n.OutputKey() ==> m == n
  }

  /**
   For a loader-valid group with distinct output keys, any device memory and any subset of failing
   reads: the published map holds exactly the registers whose cluster was read, each with the value
   it has when read alone, and there is no error if and only if no read failed.
   */
  lemma GroupReadRefinesSingleReads(dev: Device, members: seq<Register>)
    requires forall m :: m in Entries(members) ==> Loaded(m)
    requires DistinctKeys(Entries(members))
    ensures
      var cs := Pack(ByAddress(Entries(members)), 0);
      var items := ReadClusters(dev, cs);
      && (forall m :: m in Entries(members) ==> ReadAlone(dev, m).Ok?)
      && (forall k :: k in Published(items) <==>
            exists m :: m in Entries(members) && Answered(dev, cs, m) && m.OutputKey() == k)
      && (forall m :: m in Entries(members) && m.OutputKey() in Published(items) ==>
            Published(items)[m.OutputKey()] == ReadAlone(dev, m).value)
      && (Errors(items) == [] <==> forall c :: c in cs ==> dev.answers(c.start))
  {
    var es := Entries(members);
    var cs := Pack(ByAddress(es), 0);
    ClustersCoverGroup(members);
    MembersCollects(cs);
    assert AllReadable(cs) && forall m :: Answered(dev, cs, m) ==> m in es by {
      hide Pack, Tight, Loaded, Entries, Ascending;
    }
    hide Pack, Tight, Entries, Ascending, AllReadable;
    forall m | m in es ensures ReadAlone(dev, m).Ok? {
      D.DecodesWhenTypeFits(m, Words(dev, m.address, m.length));
    }
    hide ReadAlone, Loaded;
    ItemsAreYields(dev, cs);
    PublishedGroup(dev, cs, es);
  }

  lemma {:induction false} MembersCollects(cs: seq<Cluster>)
    ensures forall m :: m in Members(cs) <==> exists c :: c in cs && m in c.members
  {
    if cs != [] {
      MembersCollects(cs[1..]);
      assert cs == [cs[0]] + cs[1..];
    }
  }

  lemma PublishedHas(dev: Device, cs: seq<Cluster>, es: seq<Register>, k: string)
    requires AllReadable(cs) && forall m :: Answered(dev, cs, m) ==> m in es
    ensures
      k in Published(ReadClusters(dev, cs)) <==>
      exists m :: m in es && Answered(dev, cs, m) && m.OutputKey() == k
  {
    var items := ReadClusters(dev, cs);
    ItemsAreYields(dev, cs);
    PublishedAreItems(items);
    hide AllReadable, ReadClusters, Published, Errors, ReadAlone, Answered;
    if k in Published(items) {
      var m :| YieldOf(dev, cs, Value(k, Published(items)[k]), m);
      assert m in es && Answered(dev, cs, m) && m.OutputKey() == k;
    }
    if m :| m in es && Answered(dev, cs, m) && m.OutputKey() == k {
      assert Value(k, ReadAlone(dev, m).value) in items;
    }
  }

  lemma PublishedValue(dev: Device, cs: seq<Cluster>, es: seq<Register>, m: Register)
    requires AllReadable(cs) && DistinctKeys(es) && forall n :: Answered(dev, cs, n) ==> n in es
    requires m in es && m.OutputKey() in Published(ReadClusters(dev, cs))
    ensures
      ReadAlone(dev, m).Ok? && Published(ReadClusters(dev, cs))[m.OutputKey()] == ReadAlone(dev, m).value
  {
    var items := ReadClusters(dev, cs);
    ItemsAreYields(dev, cs);
    PublishedAreItems(items);
    hide AllReadable, ReadClusters, Published, Errors, ReadAlone, Answered;
    var k := m.OutputKey();
    var n :| YieldOf(dev, cs, Value(k, Published(items)[k]), n);
    assert n in es && n.OutputKey() == k;
  }

  lemma PublishedGroup(dev: Device, cs: seq<Cluster>, es: seq<Register>)
    requires AllReadable(cs) && DistinctKeys(es) && forall m :: Answered(dev, cs, m) ==> m in es
    ensures
      var items := ReadClusters(dev, cs);
      && (forall k :: k in Published(items) <==> exists m :: m in es && Answered(dev, cs, m) && m.OutputKey() == k)
      && (forall m :: m in es && m.OutputKey() in Published(items) ==>
            ReadAlone(dev, m).Ok? && Published(items)[m.OutputKey()] == ReadAlone(dev, m).value)
      && (Errors(items) == [] <==> forall c :: c in cs ==> dev.answers(c.start))
  {
    var items := ReadClusters(dev, cs);
    ItemsAreYields(dev, cs);
    ErrorsAreFailures(items);
    hide AllReadable, ReadClusters, Published, Errors, ReadAlone, Answered;
    forall k ensures k in Published(items) <==> exists m :: m in es && Answered(dev, cs, m) && m.OutputKey() == k {
      PublishedHas(dev, cs, es, k);
    }
    forall m | m in es && m.OutputKey() in Published(items)
      ensures ReadAlone(dev, m).Ok? && Published(items)[m.OutputKey()] == ReadAlone(dev, m).value
    {
      PublishedValue(dev, cs, es, m);
    }
  }

  // ---------------------------------------------------------------------------------------------
  // From an output key back to the register
  // ---------------------------------------------------------------------------------------------

  /** The first register with the MQTT suffix, or else the first one without a suffix that has the name. */
  function FindByOutputKey(rs: seq<Register>, key: string): Option<Register> {
    var bySuffix := FindFirst(rs, (r: Register) => r.mqtt == key);
    if bySuffix.Some? then bySuffix else FindFirst(rs, (r: Register) => r.mqtt == "" && r.name == key)
  }

  function FindFirst(rs: seq<Register>, matches: Register -> bool): (found: Option<Register>)
    ensures found.Some? ==> found.value in rs && matches(found.value)
    ensures found.None? ==> forall r :: r in rs ==> !matches(r)
  {
    if rs == [] then None
    else if matches(rs[0]) then Some(rs[0])
    else FindFirst(rs[1..], matches)
  }

  /** Whatever is found under a key has that output key, and only a key nobody has finds nothing. */
  lemma FoundHasKey(rs: seq<Register>, key: string)
    requires key != ""
    ensures
      match FindByOutputKey(rs, key)
      case Some(r) => r in rs && r.OutputKey() == key
      case None => forall r :: r in rs ==> r.OutputKey() != key
  {
  }

  /** Every published key leads back to its own register exactly when no two registers share one. */
  lemma KeysLeadBack(rs: seq<Register>)
    requires forall r :: r in rs ==> r.name != ""
    ensures
      (forall r :: r in rs ==> FindByOutputKey(rs, r.OutputKey()) == Some(r)) <==> DistinctKeys(rs)
  {
    forall r | r in rs ensures r.OutputKey() != "" {
    }
    hide FindByOutputKey;
    if DistinctKeys(rs) {
      forall r | r in rs ensures FindByOutputKey(rs, r.OutputKey()) == Some(r) {
        FoundHasKey(rs, r.OutputKey());
      }
    }
  }
}
