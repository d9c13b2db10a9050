/** Grouping registers into as few Modbus reads as possible. */
module Clusters {
  import opened Registers

  const GAP_THRESHOLD := 10
  const MAX_READ_WORDS := 125

  /** One read window: `count` words from address `start`. */
  datatype Cluster = Cluster(start: int, count: int, members: seq<Register>)

  function Max(x: int, y: int): int {
    if x > y then x else y
  }

  /** The words a register spans, clamped to 1..0xFFFF. */
  function Words(r: Register): int {
    if r.length > 1 && r.length <= 0xFFFF then r.length else 1
  }

  /** A length that fits sixteen bits counts as it is, any other as one word. */
  lemma WordsFit(r: Register)
    ensures 1 <= Words(r) <= 0xFFFF && Words(r) in {1, r.length}
    ensures Words(r) == r.length <==> 1 <= r.length <= 0xFFFF
  {
  }

  function End(r: Register): int {
    r.address + Words(r)
  }

  // ---------------------------------------------------------------------------------------------
  // Which registers are read, and in which order
  // ---------------------------------------------------------------------------------------------

  predicate HasAddress(es: seq<Register>, address: int) {
    exists e :: e in es && e.address == address
  }

  /** The Modbus registers of a group, the first definition of each address, in catalogue order. */
  function Entries(regs: seq<Register>): seq<Register> {
    if regs == [] then [] else
      var es := Entries(regs[..|regs| - 1]);
      var r := regs[|regs| - 1];
      if !r.IsModbus() || HasAddress(es, r.address) then es else es + [r]
  }

  ghost predicate Ascending(es: seq<Register>) {
    forall i, j :: 0 <= i < j < |es| ==> es[i].address < es[j].address
  }

  ghost predicate DistinctAddresses(es: seq<Register>) {
    forall i, j :: 0 <= i < j < |es| ==> es[i].address != es[j].address
  }

  function Insert(es: seq<Register>, r: Register): seq<Register> {
    if es == [] || es[|es| - 1].address < r.address then es + [r]
    else Insert(es[..|es| - 1], r) + [es[|es| - 1]]
  }

  function ByAddress(es: seq<Register>): seq<Register> {
    if es == [] then [] else Insert(ByAddress(es[..|es| - 1]), es[|es| - 1])
  }

  lemma {:induction false} InsertKeepsOrder(es: seq<Register>, r: Register)
    requires Ascending(es) && !HasAddress(es, r.address)
    ensures Ascending(Insert(es, r))
    ensures forall x :: x in Insert(es, r) <==> x in es || x == r
  {
    if es != [] && es[|es| - 1].address >= r.address {
      var init, last := es[..|es| - 1], es[|es| - 1];
      assert es == init + [last];
      assert last in es;
      InsertKeepsOrder(init, r);
      forall x | x in Insert(init, r) ensures x.address < last.address {
      }
    }
  }

  /** Sorting gives the registers in strictly ascending order of address, none added or lost. */
  lemma {:induction false} ByAddressSorts(es: seq<Register>)
    requires DistinctAddresses(es)
    ensures Ascending(ByAddress(es))
    ensures forall x :: x in ByAddress(es) <==> x in es
  {
    if es != [] {
      var init, last := es[..|es| - 1], es[|es| - 1];
      assert es == init + [last];
      ByAddressSorts(init);
      InsertKeepsOrder(ByAddress(init), last);
    }
  }

  /** There is only one such order, so it does not matter how sort.Slice finds it. */
  lemma {:induction false} OrderIsUnique(es: seq<Register>, fs: seq<Register>)
    requires Ascending(es) && Ascending(fs)
    requires forall x :: x in es <==> x in fs
    ensures es == fs
  {
    assert es != [] ==> es[|es| - 1] in fs;
    assert fs != [] ==> fs[|fs| - 1] in es;
    if es != [] {
      var x, y := es[|es| - 1], fs[|fs| - 1];
      assert x == y;
      var es', fs' := es[..|es| - 1], fs[..|fs| - 1];
      assert es == es' + [x] && fs == fs' + [x];
      forall r ensures r in es' <==> r in fs' {
        assert r in es' ==> r in fs && r != x;
        assert r in fs' ==> r in es && r != x;
      }
      OrderIsUnique(es', fs');
    }
  }

  /** Exactly the Modbus registers that no earlier one shadows, each address once. */
  lemma {:induction false} EntriesAreFirsts(regs: seq<Register>)
    ensures DistinctAddresses(Entries(regs))
    ensures forall e :: e in Entries(regs) <==>
      exists i :: 0 <= i < |regs| && regs[i] == e && FirstOfAddress(regs, i)
  {
    if regs != [] {
      var n := |regs| - 1;
      var init, last := regs[..n], regs[n];
      EntriesAreFirsts(init);
      assert forall i :: 0 <= i < n ==> (FirstOfAddress(regs, i) <==> FirstOfAddress(init, i));
      assert FirstOfAddress(regs, n) <==> last.IsModbus() && !HasAddress(Entries(init), last.address) by {
        ShadowedIffPresent(init, last.address);
      }
      forall e ensures e in Entries(regs) <==> exists i :: 0 <= i < |regs| && regs[i] == e && FirstOfAddress(regs, i) {
        if e in Entries(init) {
          var i :| 0 <= i < |init| && init[i] == e && FirstOfAddress(init, i);
          assert regs[i] == e && FirstOfAddress(regs, i);
        }
        if i :| 0 <= i < |regs| && regs[i] == e && FirstOfAddress(regs, i) {
          if i < n {
            assert init[i] == e && FirstOfAddress(init, i);
          }
        }
      }
    }
  }

  /** No Modbus register before place `i` has its address. */
  predicate FirstOfAddress(regs: seq<Register>, i: nat)
    requires i < |regs|
  {
    regs[i].IsModbus() && forall j :: 0 <= j < i ==> !(regs[j].IsModbus() && regs[j].address == regs[i].address)
  }

  lemma {:induction false} ShadowedIffPresent(regs: seq<Register>, address: int)
    ensures
      HasAddress(Entries(regs), address) <==>
      exists j :: 0 <= j < |regs| && regs[j].IsModbus() && regs[j].address == address
  {
    if regs != [] {
      var n := |regs| - 1;
      ShadowedIffPresent(regs[..n], address);
      assert forall j :: 0 <= j < n ==> regs[..n][j] == regs[j];
      var es := Entries(regs[..n]);
      if HasAddress(es, address) {
        var e :| e in es && e.address == address;
        assert e in Entries(regs);
      }
      if regs[n].IsModbus() && regs[n].address == address {
        assert HasAddress(es, address) || regs[n] in Entries(regs);
      }
    }
  }

  // ---------------------------------------------------------------------------------------------
  // Packing
  // ---------------------------------------------------------------------------------------------

  /** The addresses a register occupies, from `address` up to but not including `end`. */
  datatype Span = Span(address: int, end: int)

  function SpanOf(r: Register): Span {
    Span(r.address, End(r))
  }

  function Spans(es: seq<Register>): (sp: seq<Span>)
    ensures |sp| == |es|
    ensures forall i :: 0 <= i < |es| ==> sp[i] == SpanOf(es[i])
  {
    seq(|es|, i requires 0 <= i < |es| => SpanOf(es[i]))
  }

  /** The largest end among sp[lo..hi]. */
  function MaxEnd(sp: seq<Span>, lo: nat, hi: nat): int
    requires lo < hi <= |sp|
    decreases hi
  {
    if hi == lo + 1 then sp[lo].end else Max(MaxEnd(sp, lo, hi - 1), sp[hi - 1].end)
  }

  /** The window from `start` that ends at `end` may take `e` in. */
  predicate Merges(start: int, end: int, e: Span) {
    var words := Max(end, e.end) - start;
    e.address - end <= GAP_THRESHOLD && 1 <= words <= MAX_READ_WORDS
  }

  /** Where the window that began at sp[lo] and has taken sp[lo..k] stops. */
  function Reach(sp: seq<Span>, lo: nat, k: nat): (r: nat)
    requires lo < k <= |sp|
    ensures k <= r <= |sp|
    decreases |sp| - k
  {
    if k < |sp| && Merges(sp[lo].address, MaxEnd(sp, lo, k), sp[k]) then Reach(sp, lo, k + 1) else k
  }

  function Window(es: seq<Register>, lo: nat, hi: nat): Cluster
    requires lo < hi <= |es|
  {
    Cluster(es[lo].address, MaxEnd(Spans(es), lo, hi) - es[lo].address, es[lo..hi])
  }

  function Pack(es: seq<Register>, lo: nat): seq<Cluster>
    requires lo <= |es|
    decreases |es| - lo
  {
    if lo == |es| then [] else
      var hi := Reach(Spans(es), lo, lo + 1);
      [Window(es, lo, hi)] + Pack(es, hi)
  }

  method CollectEntries(regs: seq<Register>) returns (entries: seq<Register>)
    ensures entries == Entries(regs)
  {
    entries := [];
    var seen: set<int> := {};
    for n := 0 to |regs|
      invariant entries == Entries(regs[..n])
      invariant forall a :: a in seen <==> HasAddress(entries, a)
    {
      var r := regs[n];
      assert regs[..n + 1][..n] == regs[..n];
      if !r.IsModbus() {
        continue;
      }
      if r.address in seen {
        continue;
      }
      seen := seen + {r.address};
      ghost var before := entries;
      entries := entries + [r];
      assert r in entries;
      assert forall e :: e in entries <==> e in before || e == r;
    }
    assert regs[..|regs|] == regs;
  }

  /** The loop's state after es[..i]: `clusters`, the last of which began at es[lo], and its end. */
  ghost predicate Packing(es: seq<Register>, lo: nat, i: nat, clusters: seq<Cluster>, curEnd: int) {
    && lo < i <= |es|
    && clusters != []
    && clusters[..|clusters| - 1] + Pack(es, lo) == Pack(es, 0)
    && clusters[|clusters| - 1] == Window(es, lo, i)
    && curEnd == MaxEnd(Spans(es), lo, i)
    && Reach(Spans(es), lo, lo + 1) == Reach(Spans(es), lo, i)
  }

  lemma MaxEndExtends(sp: seq<Span>, lo: nat, k: nat)
    requires lo < k < |sp|
    ensures MaxEnd(sp, lo, k + 1) == Max(MaxEnd(sp, lo, k), sp[k].end)
  {
  }

  lemma ReachExtends(sp: seq<Span>, lo: nat, k: nat)
    requires lo < k < |sp|
    ensures Reach(sp, lo, k) == if Merges(sp[lo].address, MaxEnd(sp, lo, k), sp[k]) then Reach(sp, lo, k + 1) else k
  {
  }

  lemma PackingMerges(es: seq<Register>, lo: nat, i: nat, clusters: seq<Cluster>, curEnd: int)
    requires Packing(es, lo, i, clusters, curEnd) && i < |es| && Merges(es[lo].address, curEnd, SpanOf(es[i]))
    ensures
      var words := Max(curEnd, End(es[i])) - es[lo].address;
      Packing(es, lo, i + 1,
        clusters[..|clusters| - 1] + [Cluster(es[lo].address, words, es[lo..i] + [es[i]])], es[lo].address + words)
  {
    hide Pack, Reach, MaxEnd, Merges;
    MaxEndExtends(Spans(es), lo, i);
    ReachExtends(Spans(es), lo, i);
    assert es[lo..i + 1] == es[lo..i] + [es[i]];
    var front, grown := clusters[..|clusters| - 1], Window(es, lo, i + 1);
    hide Window;
    Appended(front, grown);
  }

  /** The last of `front` may be counted with what follows. */
  lemma LastJoins<T>(front: seq<T>, rest: seq<T>)
    requires front != []
    ensures front[..|front| - 1] + ([front[|front| - 1]] + rest) == front + rest
  {
  }

  lemma Appended<T>(front: seq<T>, last: T)
    ensures (front + [last])[..|front|] == front && (front + [last])[|front|] == last
  {
  }

  /** A window that stops at `i` is the first of the packing from `lo`. */
  lemma PackUnfolds(es: seq<Register>, lo: nat, i: nat)
    requires lo < i <= |es| && Reach(Spans(es), lo, lo + 1) == i
    ensures Pack(es, lo) == [Window(es, lo, i)] + Pack(es, i)
  {
  }

  lemma OpenedIsWindow(es: seq<Register>, i: nat)
    requires i < |es|
    ensures Window(es, i, i + 1) == Opened(es[i]) && MaxEnd(Spans(es), i, i + 1) == End(es[i])
  {
    assert es[i..i + 1] == [es[i]];
  }

  lemma WindowStops(es: seq<Register>, lo: nat, i: nat)
    requires lo < i < |es| && !Merges(es[lo].address, MaxEnd(Spans(es), lo, i), SpanOf(es[i]))
    ensures Reach(Spans(es), lo, i) == i
  {
    hide Merges, MaxEnd;
    ReachExtends(Spans(es), lo, i);
  }

  lemma PackingSplits(es: seq<Register>, lo: nat, i: nat, clusters: seq<Cluster>, curEnd: int)
    requires Packing(es, lo, i, clusters, curEnd) && i < |es| && !Merges(es[lo].address, curEnd, SpanOf(es[i]))
    ensures Packing(es, i, i + 1, clusters + [Opened(es[i])], End(es[i]))
  {
    hide Pack, Reach, Window, Merges, MaxEnd, Opened, SpanOf, End;
    OpenedIsWindow(es, i);
    WindowStops(es, lo, i);
    PackUnfolds(es, lo, i);
    LastJoins(clusters, Pack(es, i));
    Appended(clusters, Opened(es[i]));
  }

  lemma LastWindow(es: seq<Register>, lo: nat, i: nat, clusters: seq<Cluster>, curEnd: int)
    requires Packing(es, lo, i, clusters, curEnd)
    ensures lo < i <= |es| && clusters != []
    ensures
      var last := clusters[|clusters| - 1];
      last.start == es[lo].address && last.members == es[lo..i]
  {
  }

  lemma PackingDone(es: seq<Register>, lo: nat, clusters: seq<Cluster>, curEnd: int)
    requires Packing(es, lo, |es|, clusters, curEnd)
    ensures clusters == Pack(es, 0)
  {
    PackUnfolds(es, lo, |es|);
    assert Pack(es, |es|) == [];
    LastJoins(clusters, []);
  }

  /** The window opened by the register at `i`, as the loop opens it. */
  function Opened(r: Register): Cluster {
    Cluster(r.address, Words(r), [r])
  }

  lemma PackingBegins(es: seq<Register>)
    requires es != []
    ensures Packing(es, 0, 1, [Opened(es[0])], End(es[0]))
  {
    assert es[0..1] == [es[0]];
    assert [Opened(es[0])][..0] == [];
  }

  method Clusterize(regs: seq<Register>) returns (clusters: seq<Cluster>)
    ensures clusters == Pack(ByAddress(Entries(regs)), 0)
  {
    var entries := CollectEntries(regs);
    if |entries| == 0 {
      return [];
    }
    entries := ByAddress(entries);
    clusters := PackEntries(entries);
  }

  method PackEntries(entries: seq<Register>) returns (clusters: seq<Cluster>)
    requires entries != []
    ensures clusters == Pack(entries, 0)
  {
    clusters := [Opened(entries[0])];
    var curEnd := End(entries[0]);
    ghost var lo := 0;
    PackingBegins(entries);
    hide Pack, Packing;
    for i := 1 to |entries|
      invariant lo < i && Packing(entries, lo, i, clusters, curEnd)
    {
      LastWindow(entries, lo, i, clusters, curEnd);
      var e := entries[i];
      var cur := clusters[|clusters| - 1];
      var gap := e.address - curEnd;
      var words := Max(curEnd, End(e)) - cur.start;
      if gap <= GAP_THRESHOLD && words >= 1 && words <= MAX_READ_WORDS {
        PackingMerges(entries, lo, i, clusters, curEnd);
        curEnd := cur.start + words;
        clusters := clusters[..|clusters| - 1] + [Cluster(cur.start, words, cur.members + [e])];
      } else {
        PackingSplits(entries, lo, i, clusters, curEnd);
        clusters := clusters + [Opened(e)];
        curEnd := End(e);
        lo := i;
      }
    }
    PackingDone(entries, lo, clusters, curEnd);
  }

  // ---------------------------------------------------------------------------------------------
  // What the windows cover
  // ---------------------------------------------------------------------------------------------

  function Members(cs: seq<Cluster>): seq<Register> {
    if cs == [] then [] else cs[0].members + Members(cs[1..])
  }

  lemma FirstWindow(c: Cluster, cs: seq<Cluster>)
    ensures Members([c] + cs) == c.members + Members(cs)
  {
    assert ([c] + cs)[1..] == cs;
  }

  lemma SliceJoins<T>(s: seq<T>, lo: nat, hi: nat)
    requires lo <= hi <= |s|
    ensures s[lo..hi] + s[hi..] == s[lo..]
  {
  }

  /** The windows hold exactly the packed registers, in order. */
  lemma {:induction false} PackKeepsAll(es: seq<Register>, lo: nat)
    requires lo <= |es|
    ensures Members(Pack(es, lo)) == es[lo..]
    decreases |es| - lo
  {
    if lo < |es| {
      var hi := Reach(Spans(es), lo, lo + 1);
      PackUnfolds(es, lo, hi);
      PackKeepsAll(es, hi);
      FirstWindow(Window(es, lo, hi), Pack(es, hi));
      SliceJoins(es, lo, hi);
      hide Members, Pack, Reach, MaxEnd;
    }
  }

  lemma {:induction false} MaxEndBounds(sp: seq<Span>, lo: nat, hi: nat) returns (top: nat)
    requires lo < hi <= |sp|
    ensures forall i :: lo <= i < hi ==> sp[i].end <= MaxEnd(sp, lo, hi)
    ensures lo <= top < hi && sp[top].end == MaxEnd(sp, lo, hi)
    decreases hi
  {
    if hi == lo + 1 {
      top := lo;
    } else {
      top := MaxEndBounds(sp, lo, hi - 1);
      if sp[hi - 1].end > MaxEnd(sp, lo, hi - 1) {
        top := hi - 1;
      }
    }
  }

  /** The window begins where its first member does, ends where the last of them ends, covers all. */
  ghost predicate Tight(c: Cluster) {
    && c.members != []
    && c.start == c.members[0].address
    && (forall m :: m in c.members ==> c.start <= m.address && End(m) <= c.start + c.count)
    && (exists m :: m in c.members && End(m) == c.start + c.count)
  }

  /** What the loader guarantees about a Modbus register. */
  predicate LoaderValid(r: Register) {
    1 <= r.length <= MAX_READ_WORDS && r.address + r.length <= 0x1_0000
  }

  ghost predicate AllLoaderValid(es: seq<Register>) {
    forall e :: e in es ==> LoaderValid(e)
  }

  lemma {:induction false} ReachFits(sp: seq<Span>, lo: nat, k: nat)
    requires lo < k <= |sp|
    requires 1 <= MaxEnd(sp, lo, k) - sp[lo].address <= MAX_READ_WORDS
    ensures 1 <= MaxEnd(sp, lo, Reach(sp, lo, k)) - sp[lo].address <= MAX_READ_WORDS
    decreases |sp| - k
  {
    if k < |sp| && Merges(sp[lo].address, MaxEnd(sp, lo, k), sp[k]) {
      ReachFits(sp, lo, k + 1);
    }
  }

  /** A read of 1 to 125 words inside the 16-bit address space. */
  predicate LegalRead(c: Cluster) {
    1 <= c.count <= MAX_READ_WORDS && 0 <= c.start && c.start + c.count <= 0x1_0000
  }

  lemma MembersInside(es: seq<Register>, lo: nat, hi: nat, top: int)
    requires lo < hi <= |es| && Ascending(es)
    requires forall i :: lo <= i < hi ==> Spans(es)[i].end <= top
    ensures forall m :: m in es[lo..hi] ==> es[lo].address <= m.address && End(m) <= top
  {
    forall m | m in es[lo..hi] ensures es[lo].address <= m.address && End(m) <= top {
      var k :| lo <= k < hi && es[k] == m;
      assert Spans(es)[k].end == End(m);
    }
  }

  lemma WindowIsTight(es: seq<Register>, lo: nat, hi: nat)
    requires lo < hi <= |es| && Ascending(es)
    ensures Tight(Window(es, lo, hi))
    ensures exists m :: m in es[lo..hi] && End(m) == MaxEnd(Spans(es), lo, hi)
  {
    var sp := Spans(es);
    var top := MaxEndBounds(sp, lo, hi);
    MembersInside(es, lo, hi, sp[top].end);
    hide MaxEnd, Ascending;
    assert es[top] == es[lo..hi][top - lo] && End(es[top]) == sp[top].end;
  }

  lemma WindowIsLegal(es: seq<Register>, lo: nat)
    requires lo < |es| && Ascending(es) && AllLoaderValid(es)
    ensures LegalRead(Window(es, lo, Reach(Spans(es), lo, lo + 1)))
  {
    var sp := Spans(es);
    assert LoaderValid(es[lo]) && MaxEnd(sp, lo, lo + 1) == End(es[lo]);
    ReachFits(sp, lo, lo + 1);
    var hi := Reach(sp, lo, lo + 1);
    WindowIsTight(es, lo, hi);
    hide Reach, MaxEnd, Ascending, Tight;
    var m :| m in es[lo..hi] && End(m) == MaxEnd(sp, lo, hi);
    assert m in es && LoaderValid(m);
  }

  lemma {:induction false} PackIsTight(es: seq<Register>, lo: nat)
    requires lo <= |es| && Ascending(es)
    ensures forall c :: c in Pack(es, lo) ==> Tight(c) && (AllLoaderValid(es) ==> LegalRead(c))
    decreases |es| - lo
  {
    if lo < |es| {
      var hi := Reach(Spans(es), lo, lo + 1);
      WindowIsTight(es, lo, hi);
      if AllLoaderValid(es) {
        WindowIsLegal(es, lo);
      }
      assert Pack(es, lo) == [Window(es, lo, hi)] + Pack(es, hi);
      hide Tight, Reach, LegalRead, Window, Ascending, AllLoaderValid;
      PackIsTight(es, hi);
    }
  }

  /**
   Clusterize covers exactly the group's Modbus registers (first definition per address) in strictly
   ascending order with tight windows; for loader-valid registers every window is a legal read.
   */
  lemma ClustersCoverGroup(regs: seq<Register>)
    ensures
      var cs := Pack(ByAddress(Entries(regs)), 0);
      && Ascending(Members(cs))
      && (forall m :: m in Members(cs) <==> m in Entries(regs))
      && (forall c :: c in cs ==> Tight(c) && (AllLoaderValid(Entries(regs)) ==> LegalRead(c)))
  {
    EntriesAreFirsts(regs);
    var es := ByAddress(Entries(regs));
    ByAddressSorts(Entries(regs));
    PackKeepsAll(es, 0);
    assert es[0..] == es;
    PackIsTight(es, 0);
  }

  // ---------------------------------------------------------------------------------------------
  // No fewer windows are possible
  // ---------------------------------------------------------------------------------------------

  ghost predicate AscendingSpans(sp: seq<Span>) {
    && (forall i, j :: 0 <= i < j < |sp| ==> sp[i].address < sp[j].address)
    && (forall i :: 0 <= i < |sp| ==> sp[i].address < sp[i].end <= sp[i].address + MAX_READ_WORDS)
  }

  /** sp[lo..hi] may be read at once: no hole over 10 words, no more than 125 words in all. */
  ghost predicate Readable(sp: seq<Span>, lo: nat, hi: nat) {
    && lo < hi <= |sp|
    && MaxEnd(sp, lo, hi) - sp[lo].address <= MAX_READ_WORDS
    && (forall k :: lo < k < hi ==> sp[k].address - MaxEnd(sp, lo, k) <= GAP_THRESHOLD)
  }

  /** `cuts` splits sp[lo..] into readable windows: each cut ends one, the last cut ends them all. */
  ghost predicate Splits(sp: seq<Span>, lo: nat, cuts: seq<nat>)
    decreases |cuts|
  {
    if cuts == [] then lo == |sp|
    else Readable(sp, lo, cuts[0]) && Splits(sp, cuts[0], cuts[1..])
  }

  /** sp[r] ends after everything before it. */
  ghost predicate Furthest(sp: seq<Span>, r: nat) {
    r <= |sp| && (r < |sp| ==> forall i :: 0 <= i < r ==> sp[i].end < sp[r].end)
  }

  /** With sp[r] ending after everything before it, an earlier start makes no end larger. */
  lemma MaxEndFrom(sp: seq<Span>, c: nat, r: nat, k: nat)
    requires Furthest(sp, r) && c <= r < k <= |sp|
    ensures MaxEnd(sp, c, k) == MaxEnd(sp, r, k)
  {
    var top := MaxEndBounds(sp, c, k);
    var top' := MaxEndBounds(sp, r, k);
  }

  lemma InsideGap(sp: seq<Span>, c: nat, hi: nat, r: nat, k: nat)
    requires Furthest(sp, r) && Readable(sp, c, hi) && c <= r < k < hi
    ensures sp[k].address - MaxEnd(sp, r, k) <= GAP_THRESHOLD
  {
    hide MaxEnd, Furthest;
    MaxEndFrom(sp, c, r, k);
    assert sp[k].address - MaxEnd(sp, c, k) <= GAP_THRESHOLD;
  }

  lemma InsideWords(sp: seq<Span>, c: nat, hi: nat, r: nat, k: nat)
    requires AscendingSpans(sp) && Readable(sp, c, hi) && c <= r < k < hi
    ensures 1 <= Max(MaxEnd(sp, r, k), sp[k].end) - sp[r].address <= MAX_READ_WORDS
  {
    hide MaxEnd;
    MaxEndExtends(sp, r, k);
    var top := MaxEndBounds(sp, r, k + 1);
    var most := MaxEndBounds(sp, c, hi);
    assert sp[r].address < sp[k].address < sp[k].end;
    assert c < r ==> sp[c].address < sp[r].address;
    hide AscendingSpans;
  }

  lemma MergesInside(sp: seq<Span>, c: nat, hi: nat, r: nat, k: nat)
    requires AscendingSpans(sp) && Furthest(sp, r) && Readable(sp, c, hi) && c <= r < k < hi
    ensures Merges(sp[r].address, MaxEnd(sp, r, k), sp[k])
  {
    hide MaxEnd, AscendingSpans, Furthest, Readable;
    InsideGap(sp, c, hi, r, k);
    InsideWords(sp, c, hi, r, k);
  }

  lemma {:induction false} ReadableIsReached(sp: seq<Span>, c: nat, hi: nat, r: nat, k: nat)
    requires AscendingSpans(sp) && Furthest(sp, r) && Readable(sp, c, hi) && c <= r < k <= hi
    ensures Reach(sp, r, k) >= hi
    decreases hi - k
  {
    hide AscendingSpans, Furthest, MaxEnd, Merges;
    if k < hi {
      MergesInside(sp, c, hi, r, k);
      ReadableIsReached(sp, c, hi, r, k + 1);
    }
  }

  lemma {:induction false} ReachStops(sp: seq<Span>, lo: nat, k: nat)
    requires lo < k <= |sp|
    ensures
      var hi := Reach(sp, lo, k);
      && (hi < |sp| ==> !Merges(sp[lo].address, MaxEnd(sp, lo, hi), sp[hi]))
      && (forall i :: k <= i < hi ==> sp[i].address - MaxEnd(sp, lo, i) <= GAP_THRESHOLD)
    decreases |sp| - k
  {
    if k < |sp| && Merges(sp[lo].address, MaxEnd(sp, lo, k), sp[k]) {
      ReachStops(sp, lo, k + 1);
    }
  }

  /** A span that fits no window ends after all of it. */
  lemma EndsLater(start: int, end: int, e: Span)
    requires !Merges(start, end, e) && e.address < e.end && 1 <= end - start <= MAX_READ_WORDS
    ensures e.end > end
  {
  }

  /** The register a window stops at ends after everything before it, overlaps or not. */
  lemma StopsAtFurthest(sp: seq<Span>, r: nat)
    requires AscendingSpans(sp) && Furthest(sp, r) && r < |sp|
    ensures Furthest(sp, Reach(sp, r, r + 1))
  {
    var hi := Reach(sp, r, r + 1);
    assert MaxEnd(sp, r, r + 1) == sp[r].end;
    hide MaxEnd, Reach, Merges;
    if hi < |sp| {
      ReachFits(sp, r, r + 1);
      ReachStops(sp, r, r + 1);
      EndsLater(sp[r].address, MaxEnd(sp, r, hi), sp[hi]);
      var top := MaxEndBounds(sp, r, hi);
    }
  }

  lemma {:induction false} GreedyStaysAhead(sp: seq<Span>, c: nat, r: nat, cuts: seq<nat>, own: seq<nat>)
    requires AscendingSpans(sp) && c <= r && Furthest(sp, r) && Splits(sp, c, cuts) && Greedy(sp, r, own)
    ensures |own| <= |cuts|
    decreases |cuts|
  {
    hide AscendingSpans, Furthest, Readable, Reach, MaxEnd;
    if r < |sp| {
      assert Readable(sp, c, cuts[0]) && Splits(sp, cuts[0], cuts[1..]);
      if r < cuts[0] {
        ReadableIsReached(sp, c, cuts[0], r, r + 1);
      }
      StopsAtFurthest(sp, r);
      GreedyStaysAhead(sp, cuts[0], own[0], cuts[1..], own[1..]);
    }
  }

  /** `own` are the cuts the packing makes. */
  ghost predicate Greedy(sp: seq<Span>, lo: nat, own: seq<nat>)
    decreases |own|
  {
    lo <= |sp| &&
    if own == [] then lo == |sp|
    else lo < |sp| && own[0] == Reach(sp, lo, lo + 1) && Greedy(sp, own[0], own[1..])
  }

  lemma {:induction false} PackIsGreedy(es: seq<Register>, lo: nat) returns (own: seq<nat>)
    requires lo <= |es|
    ensures Greedy(Spans(es), lo, own) && |own| == |Pack(es, lo)|
    decreases |es| - lo
  {
    if lo == |es| {
      own := [];
    } else {
      var hi := Reach(Spans(es), lo, lo + 1);
      var rest := PackIsGreedy(es, hi);
      own := [hi] + rest;
      assert own[1..] == rest;
    }
  }

  lemma ReachIsReadable(sp: seq<Span>, lo: nat)
    requires AscendingSpans(sp) && lo < |sp|
    ensures Readable(sp, lo, Reach(sp, lo, lo + 1))
  {
    ReachFits(sp, lo, lo + 1);
    ReachStops(sp, lo, lo + 1);
  }

  lemma {:induction false} GreedySplits(sp: seq<Span>, lo: nat, own: seq<nat>)
    requires AscendingSpans(sp) && Greedy(sp, lo, own)
    ensures Splits(sp, lo, own)
    decreases |own|
  {
    hide AscendingSpans, Readable, Reach;
    if own != [] {
      ReachIsReadable(sp, lo);
      GreedySplits(sp, own[0], own[1..]);
    }
  }

  /**
   Clusterize is optimal, overlapping registers included: for registers of at most 125 words its
   windows are one way to split the ascending list into readable windows, and no way uses fewer.
   */
  lemma FewestReads(regs: seq<Register>, cuts: seq<nat>) returns (own: seq<nat>)
    requires forall r :: r in regs ==> r.length <= MAX_READ_WORDS
    requires Splits(Spans(ByAddress(Entries(regs))), 0, cuts)
    ensures Splits(Spans(ByAddress(Entries(regs))), 0, own)
    ensures |own| == |Pack(ByAddress(Entries(regs)), 0)| <= |cuts|
  {
    EntriesAreFirsts(regs);
    ByAddressSorts(Entries(regs));
    var es := ByAddress(Entries(regs));
    var sp := Spans(es);
    forall i | 0 <= i < |es| ensures Words(es[i]) <= MAX_READ_WORDS {
      assert es[i] in Entries(regs);
    }
    assert AscendingSpans(sp);
    own := PackIsGreedy(es, 0);
    GreedySplits(sp, 0, own);
    GreedyStaysAhead(sp, 0, 0, cuts, own);
  }
}
