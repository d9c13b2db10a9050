/**
 Publishing the Home Assistant device document. Birth messages and broker reconnects run on their
 own goroutines; one publisher re-sends the document while discoverySent is false. They share three
 atomics, and every load, store, add and swap on one of them is one event.
 */
module Discovery {
  import opened Options

  type Tid = nat

  /** A birth or reconnect that has not reached its Store(false). */
  datatype Thread =
    | Swapped              // reconnect: the runtime is replaced, the generation not yet bumped
    | Bumped(stamp: nat)   // the generation is bumped, to `stamp`

  datatype Publisher =
    | Resting                             // between two ticks
    | Woken                               // in publishDiscovery, nothing read yet
    | Sampled(gen: nat)
    | Loaded(gen: nat, runtime: nat)      // the publish is in flight
    | Published(gen: nat, runtime: nat)   // the publish succeeded
    | Settling(gen: nat, runtime: nat)    // the generation compared equal; about to Store(true)
    | Clearing                            // publish failed or birth raced; about to Store(false)

  /** A successful publish: the generation it sampled and the runtime it went through. */
  datatype Sent = Sent(gen: nat, runtime: nat)

  /**
   `runtime` numbers the Home Assistant runtimes. History: `last` is the last successful publish,
   `cleared` the stamps of the threads that reached Store(false) since the publisher's compare, and
   `overtaken` says that one of these also bumped since that compare when Store(true) came.
   */
  datatype State = State(
    gen: nat,
    sent: bool,
    runtime: nat,
    threads: map<Tid, Thread>,
    publisher: Publisher,
    last: Option<Sent>,
    cleared: set<nat>,
    overtaken: bool)

  /** Run calls publishDiscovery once before it starts the republisher. */
  const INITIAL := State(0, false, 0, map[], Woken, None, {}, false)

  datatype Event =
    | Birth(t: Tid)               // onMessage: Add(1)
    | Swap(t: Tid, renewed: bool) // resetHAPlane; when the factory returns nil it keeps the old one
    | Bump(t: Tid)                // PublishOnline: Add(1)
    | Clear(t: Tid)               // Store(false) of either
    | Wake                        // the republisher loads discoverySent
    | Sample
    | Load
    | PublishReturns(ok: bool)
    | Compare
    | Settle
    | Unsettle

  predicate Enabled(s: State, e: Event) {
    match e
    case Birth(t) => t !in s.threads
    case Swap(t, _) => t !in s.threads
    case Bump(t) => t in s.threads && s.threads[t].Swapped?
    case Clear(t) => t in s.threads && s.threads[t].Bumped?
    case Wake => s.publisher.Resting? && !s.sent
    case Sample => s.publisher.Woken?
    case Load => s.publisher.Sampled?
    case PublishReturns(_) => s.publisher.Loaded?
    case Compare => s.publisher.Published?
    case Settle => s.publisher.Settling?
    case Unsettle => s.publisher.Clearing?
  }

  function Fire(s: State, e: Event): State
    requires Enabled(s, e)
  {
    match e
    case Birth(t) => s.(gen := s.gen + 1, threads := s.threads[t := Bumped(s.gen + 1)])
    case Swap(t, renewed) =>
      s.(runtime := if renewed then s.runtime + 1 else s.runtime, threads := s.threads[t := Swapped])
    case Bump(t) => s.(gen := s.gen + 1, threads := s.threads[t := Bumped(s.gen + 1)])
    case Clear(t) => s.(sent := false, threads := s.threads - {t}, cleared := s.cleared + {s.threads[t].stamp})
    case Wake => s.(publisher := Woken)
    case Sample => s.(publisher := Sampled(s.gen))
    case Load => s.(publisher := Loaded(s.publisher.gen, s.runtime))
    case PublishReturns(ok) =>
      if ok then
        s.(publisher := Published(s.publisher.gen, s.publisher.runtime),
           last := Some(Sent(s.publisher.gen, s.publisher.runtime)))
      else
        s.(publisher := Clearing)
    case Compare =>
      if s.gen == s.publisher.gen then
        s.(publisher := Settling(s.publisher.gen, s.publisher.runtime), cleared := {})
      else
        s.(publisher := Clearing)
    case Settle =>
      s.(sent := true, publisher := Resting, overtaken := exists c :: c in s.cleared && c > s.publisher.gen)
    case Unsettle => s.(sent := false, publisher := Resting)
  }

  predicate Legal(s: State, es: seq<Event>)
    decreases |es|
  {
    es == [] || (Enabled(s, es[0]) && Legal(Fire(s, es[0]), es[1..]))
  }

  function Run(s: State, es: seq<Event>): State
    requires Legal(s, es)
    decreases |es|
  {
    if es == [] then s else Run(Fire(s, es[0]), es[1..])
  }

  ghost predicate Reachable(s: State) {
    exists es :: Legal(INITIAL, es) && Run(INITIAL, es) == s
  }

  /** The last successful publish knew every birth and reconnect and used the current runtime. */
  predicate Fresh(s: State) {
    s.last == Some(Sent(s.gen, s.runtime))
  }

  predicate InFlight(s: State) {
    s.threads != map[]
  }

  /** What was sampled is not from the future, and only a half-done reconnect may hide a swap. */
  ghost predicate NotStale(s: State, gen: nat, runtime: nat) {
    && gen <= s.gen
    && (gen == s.gen && runtime != s.runtime ==> exists t :: t in s.threads && s.threads[t].Swapped?)
  }

  /** A thread that bumped past `gen` has not reached its Store(false). */
  ghost predicate BumpPending(s: State, gen: nat) {
    exists t :: t in s.threads && s.threads[t].Bumped? && s.threads[t].stamp > gen
  }

  ghost predicate Inv(s: State) {
    && (forall t :: t in s.threads && s.threads[t].Bumped? ==> s.threads[t].stamp <= s.gen)
    && (forall c :: c in s.cleared ==> c <= s.gen)
    && (!s.publisher.Resting? ==> !s.sent)
    && (match s.publisher
        case Sampled(g) => g <= s.gen
        case Loaded(g, r) => NotStale(s, g, r)
        case Published(g, r) => NotStale(s, g, r) && s.last == Some(Sent(g, r))
        case Settling(g, r) =>
          && NotStale(s, g, r)
          && s.last == Some(Sent(g, r))
          && (g < s.gen ==> (exists c :: c in s.cleared && c > g) || BumpPending(s, g))
        case _ => true)
    && (s.sent ==>
          && s.last.Some?
          && NotStale(s, s.last.value.gen, s.last.value.runtime)
          && (s.overtaken ==> s.last.value.gen < s.gen)
          && (s.last.value.gen < s.gen ==> s.overtaken || BumpPending(s, s.last.value.gen)))
  }

  lemma StillNotStale(s: State, e: Event, gen: nat, runtime: nat)
    requires Enabled(s, e) && NotStale(s, gen, runtime)
    ensures NotStale(Fire(s, e), gen, runtime)
  {
    var t := Fire(s, e);
    if gen == t.gen && runtime != t.runtime {
      if runtime != s.runtime {
        var x :| x in s.threads && s.threads[x].Swapped?;
        assert x in t.threads && t.threads[x].Swapped?;
      } else {
        assert e.Swap? && t.threads[e.t].Swapped?;
      }
    }
  }

  lemma StillPending(s: State, e: Event, gen: nat)
    requires Enabled(s, e) && gen <= s.gen
    requires gen < s.gen ==> BumpPending(s, gen)
    requires forall t :: e == Clear(t) ==> s.threads[t].stamp <= gen
    ensures gen < Fire(s, e).gen ==> BumpPending(Fire(s, e), gen)
  {
    var t := Fire(s, e);
    if e.Birth? || e.Bump? {
      assert e.t in t.threads && t.threads[e.t].Bumped? && t.threads[e.t].stamp > gen;
    } else if gen < s.gen {
      var x :| x in s.threads && s.threads[x].Bumped? && s.threads[x].stamp > gen;
      assert x in t.threads && t.threads[x].Bumped? && t.threads[x].stamp > gen;
    }
  }

  lemma InvStep(s: State, e: Event)
    requires Inv(s) && Enabled(s, e)
    ensures Inv(Fire(s, e))
  {
    var t := Fire(s, e);
    if s.publisher.Loaded? || s.publisher.Published? || s.publisher.Settling? {
      StillNotStale(s, e, s.publisher.gen, s.publisher.runtime);
    }
    if s.publisher.Settling? {
      var g := s.publisher.gen;
      if e.Clear? && s.threads[e.t].stamp > g {
        assert s.threads[e.t].stamp in t.cleared;
      } else if exists c :: c in s.cleared && c > g {
        var c :| c in s.cleared && c > g;
        assert c in t.cleared;
      } else {
        StillPending(s, e, g);
      }
    }
    if s.sent {
      StillNotStale(s, e, s.last.value.gen, s.last.value.runtime);
      if !e.Clear? && !s.overtaken {
        StillPending(s, e, s.last.value.gen);
      }
    }
  }

  lemma {:induction false} InvRun(s: State, es: seq<Event>)
    requires Inv(s) && Legal(s, es)
    ensures Inv(Run(s, es))
    decreases |es|
  {
    hide Inv;
    if es != [] {
      InvStep(s, es[0]);
      InvRun(Fire(s, es[0]), es[1..]);
    }
  }

  /**
   discoverySent true means that the last publish is fresh, unless a birth or reconnect has yet to
   reach its Store(false), or one bumped and cleared between the publisher's compare and its
   Store(true). With no such thread under way the second exception is exact.
   */
  lemma SentMeansFresh(s: State)
    requires Reachable(s) && s.sent
    ensures Fresh(s) || InFlight(s) || s.overtaken
    ensures !InFlight(s) ==> (Fresh(s) <==> !s.overtaken)
  {
    var es :| Legal(INITIAL, es) && Run(INITIAL, es) == s;
    InvRun(INITIAL, es);
    if BumpPending(s, s.last.value.gen) || exists t :: t in s.threads && s.threads[t].Swapped? {
      assert InFlight(s);
    }
  }

  /** A publish overtaken by a birth or reconnect before its compare is repeated by the next tick. */
  lemma StalePassIsRepeated(s: State)
    requires s.publisher.Published? && s.publisher.gen != s.gen
    ensures Legal(s, [Compare, Unsettle])
    ensures var t := Run(s, [Compare, Unsettle]); t == s.(sent := false, publisher := Resting) && Enabled(t, Wake)
  {
    var es := [Compare, Unsettle];
    assert es[1..] == [Unsettle] && es[1..][1..] == [];
  }

  // ---------------------------------------------------------------------------------------------
  // The window between the compare and the store
  // ---------------------------------------------------------------------------------------------

  /** In `w`, some thread bumps and later reaches Store(false); those in `late` have bumped before. */
  predicate Overtakes(late: set<Tid>, w: seq<Event>)
    decreases |w|
  {
    w != [] &&
    match w[0]
    case Birth(t) => Overtakes(late + {t}, w[1..])
    case Bump(t) => Overtakes(late + {t}, w[1..])
    case Clear(t) => t in late || Overtakes(late - {t}, w[1..])
    case _ => Overtakes(late, w[1..])
  }

  /** The threads that bumped past `gen`. */
  function Late(s: State, gen: nat): set<Tid> {
    set t | t in s.threads && s.threads[t].Bumped? && s.threads[t].stamp > gen
  }

  predicate ClearedPast(s: State, gen: nat) {
    exists c :: c in s.cleared && c > gen
  }

  lemma LateStep(s: State, e: Event)
    requires s.publisher.Settling? && s.publisher.gen <= s.gen && Enabled(s, e) && !e.Settle?
    ensures
      var g := s.publisher.gen;
      var t := Fire(s, e);
      && t.publisher == s.publisher
      && g <= t.gen
      && Late(t, g) == (match e
                        case Birth(x) => Late(s, g) + {x}
                        case Bump(x) => Late(s, g) + {x}
                        case Clear(x) => Late(s, g) - {x}
                        case _ => Late(s, g))
      && (ClearedPast(t, g) <==> ClearedPast(s, g) || (e.Clear? && e.t in Late(s, g)))
  {
    var g, t := s.publisher.gen, Fire(s, e);
    if ClearedPast(s, g) {
      var c :| c in s.cleared && c > g;
      assert c in t.cleared;
    }
    if e.Clear? && e.t in Late(s, g) {
      assert s.threads[e.t].stamp in t.cleared;
    }
  }

  lemma {:induction false} WindowCounts(s: State, w: seq<Event>)
    requires s.publisher.Settling? && s.publisher.gen <= s.gen
    requires Legal(s, w) && forall e :: e in w ==> !e.Settle?
    ensures Run(s, w).publisher == s.publisher
    ensures ClearedPast(Run(s, w), s.publisher.gen) <==>
      ClearedPast(s, s.publisher.gen) || Overtakes(Late(s, s.publisher.gen), w)
    decreases |w|
  {
    if w != [] {
      LateStep(s, w[0]);
      WindowCounts(Fire(s, w[0]), w[1..]);
    }
  }

  lemma {:induction false} RunAlso(s: State, es: seq<Event>, fs: seq<Event>)
    requires Legal(s, es) && Legal(Run(s, es), fs)
    ensures Legal(s, es + fs) && Run(s, es + fs) == Run(Run(s, es), fs)
    decreases |es|
  {
    if es == [] {
      assert es + fs == fs;
    } else {
      assert (es + fs)[1..] == es[1..] + fs;
      RunAlso(Fire(s, es[0]), es[1..], fs);
    }
  }

  /**
   The exact condition, on events alone: when the compare finds the generation unchanged and `w`
   happens before Store(true), then once every thread has reached its Store(false) the document is
   known to be current if and only if no thread both bumped and cleared in `w`.
   */
  lemma LostExactlyWhenOvertaken(s: State, w: seq<Event>)
    requires Reachable(s) && s.publisher.Published? && s.publisher.gen == s.gen
    requires Legal(Fire(s, Compare), w) && forall e :: e in w ==> !e.Settle?
    ensures
      var u := Run(Fire(s, Compare), w);
      && Enabled(u, Settle)
      && Fire(u, Settle).sent
      && (!InFlight(Fire(u, Settle)) ==> (Fresh(Fire(u, Settle)) <==> !Overtakes({}, w)))
  {
    var es :| Legal(INITIAL, es) && Run(INITIAL, es) == s;
    InvRun(INITIAL, es);
    var c := Fire(s, Compare);
    assert Late(c, s.gen) == {};
    WindowCounts(c, w);
    var u := Run(c, w);
    var v := Fire(u, Settle);
    assert Legal(c, []) && Run(c, []) == c && Legal(v, []) && Run(v, []) == v;
    assert Legal(s, [Compare]) && Run(s, [Compare]) == c;
    assert Legal(u, [Settle]) && Run(u, [Settle]) == v;
    RunAlso(INITIAL, es, [Compare]);
    RunAlso(INITIAL, es + [Compare], w);
    RunAlso(INITIAL, es + [Compare] + w, [Settle]);
    assert Reachable(v);
    SentMeansFresh(v);
  }

  /** The events are legal and lead from s to t. */
  ghost predicate Leads(s: State, es: seq<Event>, t: State) {
    Legal(s, es) && Run(s, es) == t
  }

  lemma First(s: State, e: Event, es: seq<Event>, t: State)
    requires Enabled(s, e) && Leads(Fire(s, e), es, t)
    ensures Leads(s, [e] + es, t)
  {
    assert ([e] + es)[1..] == es;
    hide Fire;
  }

  /** A birth that bumps after the compare and clears before Store(true). */
  function LostBirth(): seq<Event> {
    [Sample] + ([Load] + ([PublishReturns(true)] + ([Compare] + ([Birth(0)] + ([Clear(0)] + [Settle])))))
  }

  /** A birth can be lost: the document is marked sent although the birth came after it. */
  lemma BirthCanBeLost()
    ensures exists s :: Leads(INITIAL, LostBirth(), s) && s.sent && !InFlight(s) && !Fresh(s)
  {
    var s1 := Fire(INITIAL, Sample);
    var s2 := Fire(s1, Load);
    var s3 := Fire(s2, PublishReturns(true));
    var s4 := Fire(s3, Compare);
    var s5 := Fire(s4, Birth(0));
    var s6 := Fire(s5, Clear(0));
    var s7 := Fire(s6, Settle);
    assert s7.sent && s7.threads == map[] && s7.last == Some(Sent(0, 0)) && s7.gen == 1;
    assert Leads(s7, [], s7);
    hide Leads, Fire;
    var e6 := [Settle];
    var e5 := [Clear(0)] + e6;
    var e4 := [Birth(0)] + e5;
    var e3 := [Compare] + e4;
    var e2 := [PublishReturns(true)] + e3;
    var e1 := [Load] + e2;
    assert [Settle] + [] == e6;
    First(s6, Settle, [], s7);
    First(s5, Clear(0), e6, s7);
    First(s4, Birth(0), e5, s7);
    First(s3, Compare, e4, s7);
    First(s2, PublishReturns(true), e3, s7);
    First(s1, Load, e2, s7);
    First(INITIAL, Sample, e1, s7);
  }

  /** One undisturbed pass of the publisher, from its look at discoverySent to its last store. */
  function Pass(ok: bool): seq<Event> {
    var end := if ok then [PublishReturns(true)] + ([Compare] + [Settle]) else [PublishReturns(false)] + [Unsettle];
    [Wake] + ([Sample] + ([Load] + end))
  }

  /**
   An undisturbed pass over an unsent document makes it sent and fresh exactly when the publish
   succeeds, whatever was lost before; a failed one leaves it unsent for the next tick.
   */
  lemma UndisturbedPass(s: State, ok: bool)
    requires s.publisher.Resting? && !s.sent
    ensures
      exists t :: Leads(s, Pass(ok), t)
        && t.sent == ok && t.publisher.Resting?
        && t.gen == s.gen && t.runtime == s.runtime && t.threads == s.threads
        && (ok ==> Fresh(t) && !t.overtaken)
        && (!ok ==> t.last == s.last)
  {
    var s1 := Fire(s, Wake);
    var s2 := Fire(s1, Sample);
    var s3 := Fire(s2, Load);
    var s4 := Fire(s3, PublishReturns(ok));
    if ok {
      var s5 := Fire(s4, Compare);
      var s6 := Fire(s5, Settle);
      assert Leads(s6, [], s6) && [Settle] + [] == [Settle];
      hide Leads;
      First(s5, Settle, [], s6);
      First(s4, Compare, [Settle], s6);
      PassBegins(s, true, [Compare] + [Settle], s6);
    } else {
      var s5 := Fire(s4, Unsettle);
      assert Leads(s5, [], s5) && [Unsettle] + [] == [Unsettle];
      hide Leads;
      First(s4, Unsettle, [], s5);
      PassBegins(s, false, [Unsettle], s5);
    }
  }

  lemma PassBegins(s: State, ok: bool, es: seq<Event>, t: State)
    requires s.publisher.Resting? && !s.sent
    requires Leads(Fire(Fire(Fire(Fire(s, Wake), Sample), Load), PublishReturns(ok)), es, t)
    ensures Leads(s, [Wake] + ([Sample] + ([Load] + ([PublishReturns(ok)] + es))), t)
  {
    hide Leads;
    var s1 := Fire(s, Wake);
    var s2 := Fire(s1, Sample);
    var s3 := Fire(s2, Load);
    var e3 := [PublishReturns(ok)] + es;
    var e2 := [Load] + e3;
    First(s3, PublishReturns(ok), es, t);
    First(s2, Load, e3, t);
    First(s1, Sample, e2, t);
    First(s, Wake, [Sample] + e2, t);
  }

  // ---------------------------------------------------------------------------------------------
  // The code itself, undisturbed
  // ---------------------------------------------------------------------------------------------

  /** The atomics of the coordinator, with the last successful publish as the broker saw it. */
  class HAPlane {
    var discoveryGen: nat
    var discoverySent: bool
    var haRuntime: nat
    var last: Option<Sent>
    const hassStatusTopic: string

    constructor (statusTopic: string)
      ensures discoveryGen == 0 && !discoverySent && haRuntime == 0 && last == None
      ensures hassStatusTopic == statusTopic
    {
      discoveryGen, discoverySent, haRuntime, last := 0, false, 0, None;
      hassStatusTopic := statusTopic;
    }

    ghost predicate Shows(s: State)
      reads this
    {
      s.gen == discoveryGen && s.sent == discoverySent && s.runtime == haRuntime && s.last == last
    }

    method OnMessage(topic: string, payload: string, t: Tid, ghost s: State)
      requires Shows(s) && t !in s.threads
      modifies this`discoveryGen, this`discoverySent
      ensures topic == hassStatusTopic && payload == "online" ==> Shows(Fire(Fire(s, Birth(t)), Clear(t)))
      ensures !(topic == hassStatusTopic && payload == "online") ==> Shows(s)
    {
      if topic != hassStatusTopic {
        return;
      }
      if payload != "online" {
        return;
      }
      discoveryGen := discoveryGen + 1;
      discoverySent := false;
    }

    method ResetHAPlane(renewed: bool, t: Tid, ghost s: State)
      requires Shows(s) && t !in s.threads
      modifies this`haRuntime
      ensures Shows(Fire(s, Swap(t, renewed)))
    {
      if !renewed {
        return;
      }
      haRuntime := haRuntime + 1;
    }

    method PublishOnline(renewed: bool, t: Tid, ghost s: State)
      requires Shows(s) && t !in s.threads
      modifies this
      ensures Shows(Fire(Fire(Fire(s, Swap(t, renewed)), Bump(t)), Clear(t)))
    {
      ResetHAPlane(renewed, t, s);
      discoveryGen := discoveryGen + 1;
      discoverySent := false;
    }

    /** What n births handled meanwhile by other threads leave behind. */
    method BirthsCome(n: nat)
      modifies this`discoveryGen, this`discoverySent
      ensures discoveryGen == old(discoveryGen) + n
      ensures discoverySent == (old(discoverySent) && n == 0)
    {
      discoveryGen := discoveryGen + n;
      if n > 0 {
        discoverySent := false;
      }
    }

    /**
     One tick of the republisher. `ok` is what PublishBundle returns, `births` how many births come and
     are handled while it is in flight, `late` how many do after the compare and before the last store.
     */
    method Republish(ok: bool, births: nat, late: nat, ghost s: State)
      requires Shows(s) && s.publisher.Resting?
      modifies this`discoveryGen, this`discoverySent, this`last
      ensures old(discoverySent) ==> Shows(s)
      ensures !old(discoverySent) && births + late == 0 ==> Legal(s, Pass(ok)) && Shows(Run(s, Pass(ok)))
      ensures !old(discoverySent) ==>
        && discoverySent == (ok && births == 0)
        && discoveryGen == old(discoveryGen) + births + late
        && last == if ok then Some(Sent(old(discoveryGen), haRuntime)) else old(last)
    {
      if discoverySent {
        return;
      }
      UndisturbedPass(s, ok);
      var gen := discoveryGen;
      var runtime := haRuntime;
      BirthsCome(births);
      if !ok {
        BirthsCome(late);
        discoverySent := false;
        return;
      }
      last := Some(Sent(gen, runtime));
      if discoveryGen != gen {
        BirthsCome(late);
        discoverySent := false;
        return;
      }
      BirthsCome(late);
      discoverySent := true;
    }
  }
}
