/**
 The live store behind the web UI: updaters write and then wake every subscriber, subscribers sleep
 on a channel with room for one wake-up and take a snapshot when woken. A sync.RWMutex guards the
 store; a section under its write lock is one event that waits for all readers, and notify, which
 holds the read lock over a loop of sends, is one event per send.
 */
module LiveStore {
  import opened Options

  type Chan = nat
  type Tid = nat
  type Value = string

  /** What is written: a partial read of a group, or the inverter's identity. */
  datatype Update =
    | Group(name: string, values: map<string, Value>, now: int)
    | Static(serial: string, firmware: string, equipment: string)

  datatype GroupView = GroupView(updatedAt: int, values: map<string, Value>)

  datatype View = View(serial: string, firmware: string, equipment: string, groups: map<string, GroupView>)

  /** An updating goroutine that has written but not finished its notify. */
  datatype Updater =
    | Wrote                            // unlocked, notify not begun
    | Notifying(remaining: set<Chan>)  // holds the read lock; these are still to be poked

  /** A subscriber: about to take a snapshot, or asleep on its channel since its last one. */
  datatype Client = Looking | Waiting

  /**
   `buffered` says of every live channel whether a wake-up is in it. History: every update, how many
   of them each subscriber's last snapshot had seen, and that snapshot.
   */
  datatype State = State(
    view: View,
    buffered: map<Chan, bool>,
    closed: set<Chan>,
    updaters: map<Tid, Updater>,
    clients: map<Chan, Client>,
    seen: map<Chan, nat>,
    shown: map<Chan, View>,
    updates: seq<Update>)

  const EMPTY := View("", "", "", map[])
  const INITIAL := State(EMPTY, map[], {}, map[], map[], map[], map[], [])

  datatype Event =
    | Write(t: Tid, u: Update)
    | BeginNotify(t: Tid)
    | Poke(t: Tid, ch: Chan)
    | EndNotify(t: Tid)
    | Subscribe(ch: Chan)
    | Cancel(ch: Chan)
    | Receive(ch: Chan)
    | Snapshot(ch: Chan)

  /** Merge, not replace: keys a partial read does not hold keep their value. */
  function Apply(v: View, u: Update): View {
    match u
    case Group(name, values, now) =>
      var prev := if name in v.groups then v.groups[name].values else map[];
      v.(groups := v.groups[name := GroupView(now, prev + values)])
    case Static(serial, firmware, equipment) =>
      v.(serial := serial, firmware := firmware, equipment := equipment)
  }

  predicate Locked(s: State) {
    exists t :: t in s.updaters && s.updaters[t].Notifying?
  }

  predicate Enabled(s: State, e: Event) {
    match e
    case Write(t, _) => t !in s.updaters && !Locked(s)
    case BeginNotify(t) => t in s.updaters && s.updaters[t].Wrote?
    case Poke(t, ch) => t in s.updaters && s.updaters[t].Notifying? && ch in s.updaters[t].remaining
    case EndNotify(t) => t in s.updaters && s.updaters[t] == Notifying({})
    case Subscribe(ch) => ch !in s.clients && !Locked(s)
    case Cancel(ch) => ch in s.clients && !Locked(s)
    case Receive(ch) => ch in s.clients && s.clients[ch] == Waiting && ch in s.buffered && s.buffered[ch]
    case Snapshot(ch) => ch in s.clients && s.clients[ch] == Looking
  }

  function Fire(s: State, e: Event): State
    requires Enabled(s, e)
  {
    match e
    case Write(t, u) =>
      s.(view := Apply(s.view, u), updates := s.updates + [u], updaters := s.updaters[t := Wrote])
    case BeginNotify(t) => s.(updaters := s.updaters[t := Notifying(s.buffered.Keys)])
    case Poke(t, ch) =>
      s.(buffered := if ch in s.buffered then s.buffered[ch := true] else s.buffered,
         updaters := s.updaters[t := Notifying(s.updaters[t].remaining - {ch})])
    case EndNotify(t) => s.(updaters := s.updaters - {t})
    case Subscribe(ch) =>
      s.(buffered := s.buffered[ch := false], clients := s.clients[ch := Looking], seen := s.seen[ch := 0])
    case Cancel(ch) =>
      if ch in s.buffered then s.(buffered := s.buffered - {ch}, closed := s.closed + {ch}) else s
    case Receive(ch) => s.(buffered := s.buffered[ch := false], clients := s.clients[ch := Looking])
    case Snapshot(ch) =>
      s.(clients := s.clients[ch := Waiting], seen := s.seen[ch := |s.updates|], shown := s.shown[ch := s.view])
  }

  predicate Legal(s: State, es: seq<Event>)
    decreases |es|
  {
    es == [] || (Enabled(s, es[0]) && Legal(Fire(s, es[0]), es[1..]))
  }

  function Run(s: State, es: seq<Event>): State
    requires Legal(s, es)
    decreases |es|
  {
    if es == [] then s else Run(Fire(s, es[0]), es[1..])
  }

  ghost predicate Reachable(s: State) {
    exists es :: Legal(INITIAL, es) && Run(INITIAL, es) == s
  }

  // ---------------------------------------------------------------------------------------------
  // No wake-up is lost, no send meets a closed channel
  // ---------------------------------------------------------------------------------------------

  /** Updater `t` has written and not yet poked `ch`. */
  predicate StillToPoke(s: State, t: Tid, ch: Chan) {
    t in s.updaters && (s.updaters[t].Wrote? || ch in s.updaters[t].remaining)
  }

  ghost predicate WakeComing(s: State, ch: Chan) {
    exists t :: StillToPoke(s, t, ch)
  }

  ghost predicate ChannelRight(s: State, ch: Chan) {
    && ch in s.buffered && ch in s.clients && ch in s.seen && ch !in s.closed
    && (s.clients[ch] == Waiting && s.seen[ch] < |s.updates| ==> s.buffered[ch] || WakeComing(s, ch))
  }

  ghost predicate ChannelsRight(s: State) {
    && (forall ch :: ch in s.buffered ==> ChannelRight(s, ch))
    && (forall t, ch :: t in s.updaters && s.updaters[t].Notifying? && ch in s.updaters[t].remaining ==>
          ch in s.buffered)
    && (forall ch :: ch in s.clients <==> ch in s.buffered || ch in s.closed)
  }

  ghost predicate ViewsRight(s: State) {
    && s.view == Merged(s.updates)
    && (forall ch :: ch in s.seen ==> s.seen[ch] <= |s.updates|)
    && (forall ch :: ch in s.shown ==> ch in s.seen && s.shown[ch] == Merged(s.updates[..s.seen[ch]]))
    && (forall ch :: ch in s.shown || ch in s.seen ==> ch in s.clients)
  }

  ghost predicate Inv(s: State) {
    ChannelsRight(s) && ViewsRight(s)
  }

  /** The view after a sequence of updates. */
  function Merged(us: seq<Update>): View {
    if us == [] then EMPTY else Apply(Merged(us[..|us| - 1]), us[|us| - 1])
  }

  lemma ChannelStep(s: State, e: Event, ch: Chan)
    requires Enabled(s, e) && ch in s.buffered && ch in Fire(s, e).buffered && ChannelRight(s, ch)
    ensures ChannelRight(Fire(s, e), ch)
  {
    var u := Fire(s, e);
    if WakeComing(s, ch) {
      var t :| StillToPoke(s, t, ch);
      assert e == Poke(t, ch) || StillToPoke(u, t, ch);
    }
    if e.Write? {
      assert StillToPoke(u, e.t, ch);
    }
  }

  lemma ChannelsStep(s: State, e: Event)
    requires ChannelsRight(s) && Enabled(s, e)
    ensures ChannelsRight(Fire(s, e))
  {
    var u := Fire(s, e);
    forall ch | ch in u.buffered ensures ChannelRight(u, ch) {
      if ch in s.buffered {
        ChannelStep(s, e, ch);
      }
    }
    hide ChannelRight;
  }

  lemma ViewsStep(s: State, e: Event)
    requires ViewsRight(s) && Enabled(s, e)
    ensures ViewsRight(Fire(s, e))
  {
    var u := Fire(s, e);
    if e.Write? {
      assert u.updates[..|s.updates|] == s.updates;
      assert forall ch :: ch in u.seen ==> u.updates[..u.seen[ch]] == s.updates[..u.seen[ch]];
    } else {
      hide Merged;
      assert s.updates[..|s.updates|] == s.updates;
    }
  }

  lemma InvStep(s: State, e: Event)
    requires Inv(s) && Enabled(s, e)
    ensures Inv(Fire(s, e))
  {
    ChannelsStep(s, e);
    ViewsStep(s, e);
    hide ChannelsRight, ViewsRight;
  }

  lemma {:induction false} InvRun(s: State, es: seq<Event>)
    requires Inv(s) && Legal(s, es)
    ensures Inv(Run(s, es))
    decreases |es|
  {
    hide Inv;
    if es != [] {
      InvStep(s, es[0]);
      InvRun(Fire(s, es[0]), es[1..]);
    }
  }

  lemma EveryRun(s: State)
    requires Reachable(s)
    ensures Inv(s)
  {
    var es :| Legal(INITIAL, es) && Run(INITIAL, es) == s;
    InvRun(INITIAL, es);
  }

  /**
   A live subscriber that has not seen the newest update has a wake-up in its channel, is about to
   look, or will still be poked by an updater between its write and the end of its notify.
   */
  lemma NoLostWakeup(s: State, ch: Chan)
    requires Reachable(s) && ch in s.buffered
    ensures ch in s.clients && ch in s.seen
    ensures s.seen[ch] < |s.updates| ==> s.buffered[ch] || s.clients[ch] == Looking || WakeComing(s, ch)
    ensures s.updaters == map[] && s.clients[ch] == Waiting && !s.buffered[ch] ==> s.seen[ch] == |s.updates|
  {
    EveryRun(s);
    assert ChannelRight(s, ch);
  }

  /** No send meets a closed channel, and no channel is closed twice. */
  lemma NoSendOnClosed(s: State, e: Event)
    requires Reachable(s) && Enabled(s, e)
    ensures e.Poke? ==> e.ch in s.buffered && e.ch !in s.closed
    ensures e.Cancel? && e.ch in s.buffered ==> e.ch !in s.closed
  {
    EveryRun(s);
    assert e.Poke? || (e.Cancel? && e.ch in s.buffered) ==> ChannelRight(s, e.ch);
  }

  /** Cancelling ends a subscription once and for all: doing it again changes nothing. */
  lemma CancelIsIdempotent(s: State, ch: Chan)
    requires Reachable(s) && Enabled(s, Cancel(ch))
    ensures
      var t := Fire(s, Cancel(ch));
      && ch in t.closed && ch !in t.buffered
      && Enabled(t, Cancel(ch)) && Fire(t, Cancel(ch)) == t
  {
    EveryRun(s);
    var t := Fire(s, Cancel(ch));
    assert forall u :: u in t.updaters ==> u in s.updaters && t.updaters[u] == s.updaters[u];
  }

  // ---------------------------------------------------------------------------------------------
  // What one goroutine does when nothing comes between
  // ---------------------------------------------------------------------------------------------

  /** `buffered` once every channel in `left` has been poked. */
  function Poked(s: State, left: set<Chan>): map<Chan, bool> {
    map ch | ch in s.buffered :: s.buffered[ch] || ch in left
  }

  lemma PokeStep(s: State, t: Tid, ch: Chan)
    requires Enabled(s, Poke(t, ch)) && ch in s.buffered
    ensures
      var left := s.updaters[t].remaining - {ch};
      var n := Fire(s, Poke(t, ch));
      && n == s.(buffered := n.buffered, updaters := s.updaters[t := Notifying(left)])
      && n.buffered.Keys == s.buffered.Keys
      && n.updaters - {t} == s.updaters - {t}
      && Poked(n, left) == Poked(s, left + {ch})
  {
  }

  /** A pass of notify over the remaining channels puts one wake-up into each and then lets go of the lock. */
  lemma {:induction false} UndisturbedNotify(s: State, t: Tid) returns (es: seq<Event>)
    requires t in s.updaters && s.updaters[t].Notifying? && s.updaters[t].remaining <= s.buffered.Keys
    ensures Legal(s, es)
    ensures Run(s, es) == s.(updaters := s.updaters - {t}, buffered := Poked(s, s.updaters[t].remaining))
    decreases s.updaters[t].remaining
  {
    var left := s.updaters[t].remaining;
    if ch: Chan :| ch in left {
      var n := Fire(s, Poke(t, ch));
      PokeStep(s, t, ch);
      assert left - {ch} + {ch} == left;
      hide Fire, Legal, Run, Poked;
      es := UndisturbedNotify(n, t);
      es := Then(s, Poke(t, ch), es);
    } else {
      assert left == {};
      assert Poked(s, left) == s.buffered;
      es := Then(s, EndNotify(t), []);
    }
  }

  lemma Then(s: State, e: Event, es: seq<Event>) returns (fs: seq<Event>)
    requires Enabled(s, e) && Legal(Fire(s, e), es)
    ensures Legal(s, fs) && Run(s, fs) == Run(Fire(s, e), es)
  {
    fs := [e] + es;
    assert fs[1..] == es;
    hide Fire;
  }

  /** An update with nothing in between: the view holds it and a wake-up waits in every channel. */
  lemma UndisturbedUpdate(s: State, t: Tid, u: Update) returns (es: seq<Event>)
    requires Enabled(s, Write(t, u))
    ensures Legal(s, es)
    ensures Run(s, es) ==
      s.(view := Apply(s.view, u), updates := s.updates + [u], buffered := map ch | ch in s.buffered :: true)
  {
    var w := Fire(s, Write(t, u));
    var n := Fire(w, BeginNotify(t));
    es := UndisturbedNotify(n, t);
    assert n.updaters - {t} == s.updaters;
    assert Poked(n, s.buffered.Keys) == (map ch | ch in s.buffered :: true);
    es := Then(w, BeginNotify(t), es);
    es := Then(s, Write(t, u), es);
  }

  /** A woken subscriber takes the wake-up, sees the store as it is, and sleeps on an empty channel. */
  lemma UndisturbedLook(s: State, ch: Chan)
    requires Enabled(s, Receive(ch))
    ensures Legal(s, [Receive(ch), Snapshot(ch)])
    ensures Run(s, [Receive(ch), Snapshot(ch)]) ==
      s.(buffered := s.buffered[ch := false], seen := s.seen[ch := |s.updates|], shown := s.shown[ch := s.view])
  {
    var es := [Receive(ch), Snapshot(ch)];
    var r := Fire(s, es[0]);
    assert es[1..] == [Snapshot(ch)] && es[1..][1..] == [];
    assert Run(r, es[1..]) == Fire(r, Snapshot(ch));
    assert r.clients[ch := Waiting] == s.clients;
  }

  /** A new subscriber looks before it sleeps, and sleeps on an empty channel. */
  lemma UndisturbedFirstLook(s: State, ch: Chan)
    requires Enabled(s, Subscribe(ch))
    ensures Legal(s, [Subscribe(ch), Snapshot(ch)])
    ensures Run(s, [Subscribe(ch), Snapshot(ch)]) ==
      s.(buffered := s.buffered[ch := false], clients := s.clients[ch := Waiting],
         seen := s.seen[ch := |s.updates|], shown := s.shown[ch := s.view])
  {
    var es := [Subscribe(ch), Snapshot(ch)];
    var r := Fire(s, es[0]);
    assert es[1..] == [Snapshot(ch)] && es[1..][1..] == [];
    assert Run(r, es[1..]) == Fire(r, Snapshot(ch));
    assert r.clients[ch := Waiting] == s.clients[ch := Waiting];
    assert r.seen[ch := |s.updates|] == s.seen[ch := |s.updates|];
  }

  // ---------------------------------------------------------------------------------------------
  // What a snapshot shows
  // ---------------------------------------------------------------------------------------------

  predicate Touches(u: Update, g: string, k: string) {
    u.Group? && u.name == g && k in u.values
  }

  /** The value of the last update of group g that holds key k. */
  function LastValue(us: seq<Update>, g: string, k: string): Option<Value> {
    if us == [] then None
    else if Touches(us[|us| - 1], g, k) then Some(us[|us| - 1].values[k])
    else LastValue(us[..|us| - 1], g, k)
  }

  function Lookup(v: View, g: string, k: string): Option<Value> {
    if g in v.groups && k in v.groups[g].values then Some(v.groups[g].values[k]) else None
  }

  lemma {:induction false} MergedHoldsLastValues(us: seq<Update>, g: string, k: string)
    ensures Lookup(Merged(us), g, k) == LastValue(us, g, k)
    ensures g in Merged(us).groups <==> exists i :: 0 <= i < |us| && us[i].Group? && us[i].name == g
  {
    if us != [] {
      var init, u := us[..|us| - 1], us[|us| - 1];
      MergedHoldsLastValues(init, g, k);
      assert us == init + [u];
    }
  }

  /** A group's time is that of its last update, whatever keys it held. */
  lemma {:induction false} MergedHoldsLastTime(us: seq<Update>, g: string, i: nat)
    requires i < |us| && us[i].Group? && us[i].name == g
    requires forall j :: i < j < |us| ==> !(us[j].Group? && us[j].name == g)
    ensures g in Merged(us).groups && Merged(us).groups[g].updatedAt == us[i].now
  {
    if i < |us| - 1 {
      var init := us[..|us| - 1];
      assert forall j :: 0 <= j < |init| ==> init[j] == us[j];
      MergedHoldsLastTime(init, g, i);
    }
  }

  /** The identity is that of the last update that set it, and empty before the first. */
  lemma {:induction false} MergedHoldsLastIdentity(us: seq<Update>, n: nat)
    requires n <= |us| && forall j :: n <= j < |us| ==> !us[j].Static?
    requires n > 0 ==> us[n - 1].Static?
    ensures
      var v := Merged(us);
      if n == 0 then v.serial == "" && v.firmware == "" && v.equipment == ""
      else v.serial == us[n - 1].serial && v.firmware == us[n - 1].firmware && v.equipment == us[n - 1].equipment
  {
    if n < |us| {
      var init := us[..|us| - 1];
      assert forall j :: 0 <= j < |init| ==> init[j] == us[j];
      assert !us[|us| - 1].Static?;
      MergedHoldsLastIdentity(init, n);
    }
  }

  /**
   A subscriber's snapshot holds, for each key of each group, exactly the value of the last update
   before it that contained the key; nothing it has shown is lost by a later partial read.
   */
  lemma SnapshotShowsLastValues(s: State, ch: Chan, g: string, k: string)
    requires Reachable(s) && ch in s.shown
    ensures ch in s.seen && s.seen[ch] <= |s.updates|
    ensures Lookup(s.shown[ch], g, k) == LastValue(s.updates[..s.seen[ch]], g, k)
    ensures Lookup(s.shown[ch], g, k).Some? ==> Lookup(s.view, g, k).Some?
  {
    EveryRun(s);
    MergedHoldsLastValues(s.updates[..s.seen[ch]], g, k);
    MergedHoldsLastValues(s.updates, g, k);
    ValuesStay(s.updates, s.seen[ch], g, k);
  }

  lemma {:induction false} ValuesStay(us: seq<Update>, n: nat, g: string, k: string)
    requires n <= |us|
    ensures LastValue(us[..n], g, k).Some? ==> LastValue(us, g, k).Some?
  {
    if n < |us| {
      assert us[..|us| - 1][..n] == us[..n];
      ValuesStay(us[..|us| - 1], n, g, k);
    } else {
      assert us[..n] == us;
    }
  }

  // ---------------------------------------------------------------------------------------------
  // The code itself, undisturbed
  // ---------------------------------------------------------------------------------------------

  class Store {
    var view: View
    var subs: map<Chan, bool>
    var closed: set<Chan>
    var next: Chan
    ghost var updates: seq<Update>

    /** The view is the merge of all updates, and channels are never reused. */
    ghost predicate Valid()
      reads this
    {
      && view == Merged(updates)
      && (forall ch :: ch in subs ==> ch < next && ch !in closed)
      && (forall ch :: ch in closed ==> ch < next)
    }

    constructor ()
      ensures Valid() && updates == [] && subs == map[] && closed == {}
    {
      view, subs, closed, next, updates := EMPTY, map[], {}, 0, [];
    }

    method UpdateGroup(group: string, values: map<string, Value>, now: int)
      requires Valid()
      modifies this
      ensures Valid() && updates == old(updates) + [Group(group, values, now)]
      ensures subs.Keys == old(subs.Keys) && (forall ch :: ch in subs ==> subs[ch])
      ensures closed == old(closed) && next == old(next)
    {
      var prev := if group in view.groups then view.groups[group].values else map[];
      view := view.(groups := view.groups[group := GroupView(now, prev + values)]);
      updates := updates + [Group(group, values, now)];
      assert updates[..|updates| - 1] == old(updates);
      Notify();
    }

    method SetStatic(serial: string, firmware: string, equipment: string)
      requires Valid()
      modifies this
      ensures Valid() && updates == old(updates) + [Static(serial, firmware, equipment)]
      ensures subs.Keys == old(subs.Keys) && (forall ch :: ch in subs ==> subs[ch])
      ensures closed == old(closed) && next == old(next)
    {
      view := view.(serial := serial, firmware := firmware, equipment := equipment);
      updates := updates + [Static(serial, firmware, equipment)];
      assert updates[..|updates| - 1] == old(updates);
      Notify();
    }

    /** Pokes every subscriber; one that has a wake-up pending keeps it. */
    method Notify()
      requires Valid()
      modifies this`subs
      ensures Valid() && subs.Keys == old(subs.Keys) && (forall ch :: ch in subs ==> subs[ch])
    {
      var remaining := subs.Keys;
      while remaining != {}
        invariant remaining <= subs.Keys == old(subs.Keys)
        invariant forall ch :: ch in subs && ch !in remaining ==> subs[ch]
        decreases remaining
      {
        var ch :| ch in remaining;
        if !subs[ch] {
          subs := subs[ch := true];
        }
        remaining := remaining - {ch};
      }
    }

    method Snapshot() returns (v: View)
      requires Valid()
      ensures v == Merged(updates)
    {
      v := view;
    }

    method Subscribe() returns (ch: Chan)
      requires Valid()
      modifies this`subs, this`next
      ensures Valid() && ch !in old(subs) && ch !in closed && subs == old(subs)[ch := false]
    {
      ch := next;
      next := next + 1;
      subs := subs[ch := false];
    }

    method Cancel(ch: Chan)
      requires Valid()
      modifies this`subs, this`closed
      ensures Valid() && subs == old(subs) - {ch}
      ensures closed == if ch in old(subs) then old(closed) + {ch} else old(closed)
    {
      if ch in subs {
        subs := subs - {ch};
        closed := closed + {ch};
      }
    }
  }
}
