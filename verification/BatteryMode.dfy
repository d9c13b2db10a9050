/**
 The battery mode machine: evcc's commands and the watchdog queue mode changes, one worker applies
 them to the inverter's operation mode register, retrying transient failures, and puts back the mode
 the inverter was in before it left normal. Every lock-protected section, every send to the queue and
 every register access is one event.
 */
module BatteryMode {
  import opened Options
  import Text

  datatype Mode = Normal | Hold | Charge

  const CODE_ECONOMIC := 258
  const CODE_UPS := 259
  const WRITE_RETRIES := 3

  /** The operation mode a battery mode runs the inverter in; normal has none of its own. */
  function Code(m: Mode): Option<int> {
    match m
    case Hold => Some(CODE_ECONOMIC)
    case Charge => Some(CODE_UPS)
    case Normal => None
  }

  /** How a register read or write ends. Lost: it took effect, and an error was reported. */
  datatype Io = Ok | Transient | Final | Lost

  /** The worker's place in applyBatteryMode; `attempt` counts from 1. */
  datatype Worker =
    | Idle
    | Starting(target: Mode, attempt: nat)
    | Reading(target: Mode, attempt: nat, from: Mode)
    | Deciding(target: Mode, attempt: nat, from: Mode, code: int)
    | Writing(target: Mode, attempt: nat, want: int, saved: int, hasSaved: bool)
    | Committing(target: Mode, attempt: nat, saved: int, hasSaved: bool)
    | Backoff(target: Mode, attempt: nat)
  {
    /** Between the read of the operation mode and the commit. */
    predicate InTransition() { Deciding? || Writing? || Committing? }
  }

  /** The memory guarded by the mutex; mode None is the empty string before the first command. */
  datatype Memory = Memory(mode: Option<Mode>, saved: int, hasSaved: bool)
  {
    function Current(): Mode {
      if mode == None then Normal else mode.value
    }
  }

  /**
   `sending` are the modes of the commands that have passed the lock and are not queued yet, `falling`
   says the same of the watchdog's fallback; `pending` are the mode changes in the queue. `register` is
   the inverter's operation mode. History: `home` is the operator's own setting (the register's value
   while normal was last in force), `done` counts finished commands and `fallbacks` holds the times the
   watchdog fell back.
   */
  datatype State = State(
    memory: Memory,
    lastCommand: int,
    clock: int,
    register: int,
    sending: multiset<Mode>,
    falling: bool,
    pending: seq<Mode>,
    worker: Worker,
    home: int,
    done: nat,
    fallbacks: seq<int>)

  predicate Initial(s: State) {
    && s.memory == Memory(None, 0, false)
    && s.sending == multiset{} && !s.falling && s.pending == [] && s.worker == Idle
    && s.home == s.register && s.done == 0 && s.fallbacks == []
  }

  datatype Event =
    | Tick(d: nat)
    | Operator(code: int)      // somebody else sets the operation mode
    | Command(mode: Mode)      // the locked section of onEVCCSet
    | Enqueue(mode: Mode)      // its enqueueWrite
    | Watchdog(d: nat)         // the locked section of a tick; its two looks at the clock are d apart
    | EnqueueFallback          // its enqueueWrite
    | Supersede                // a full queue drops its oldest entry, a mode change
    | Refuse(mode: Mode)       // enqueueWrite gives up on a command
    | RefuseFallback
    | Take
    | Start
    | Read(io: Io)
    | Decide
    | Write(io: Io)
    | Commit
    | Retry
    | GiveUp

  /** The operator touches the mode only in normal, and not while the worker is leaving it. */
  predicate Enabled(s: State, e: Event) {
    match e
    case Operator(_) => s.memory.Current() == Normal && !s.worker.InTransition()
    case Enqueue(mode) => mode in s.sending
    case Refuse(mode) => mode in s.sending
    case Watchdog(_) => !s.falling
    case EnqueueFallback => s.falling
    case RefuseFallback => s.falling
    case Supersede => s.pending != []
    case Take => s.worker.Idle? && s.pending != []
    case Start => s.worker.Starting?
    case Read(io) => s.worker.Reading? && io != Lost
    case Decide => s.worker.Deciding?
    case Write(_) => s.worker.Writing?
    case Commit => s.worker.Committing?
    case Retry => s.worker.Backoff?
    case GiveUp => s.worker.Backoff?
    case _ => true
  }

  function Finish(s: State): State {
    s.(worker := Idle, done := s.done + 1)
  }

  /** dispatchWriteRetrying: a transient failure gets another attempt while any is left. */
  function Fail(s: State, io: Io): State
    requires !s.worker.Idle?
  {
    if io != Final && s.worker.attempt < WRITE_RETRIES then
      s.(worker := Backoff(s.worker.target, s.worker.attempt))
    else
      Finish(s)
  }

  predicate Expired(s: State, timeout: int) {
    s.memory.mode != None && s.memory.mode.value != Normal && s.clock - s.lastCommand > timeout
  }

  /** What to remember and which code to write, given the code just read. */
  function Decided(m: Memory, target: Mode, from: Mode, code: int): (int, int, bool) {
    var saved := if from == Normal then code else m.saved;
    var hasSaved := from == Normal || m.hasSaved;
    var want := if Code(target).Some? then Code(target).value else if hasSaved then saved else code;
    (want, saved, hasSaved)
  }

  function Fire(s: State, e: Event, timeout: int): State
    requires Enabled(s, e)
  {
    match e
    case Tick(d) => s.(clock := s.clock + d)
    case Operator(code) => s.(register := code, home := code)
    case Command(mode) =>
      s.(lastCommand := s.clock,
         sending := if mode == s.memory.Current() then s.sending else s.sending + multiset{mode})
    case Enqueue(mode) => s.(sending := s.sending - multiset{mode}, pending := s.pending + [mode])
    case Refuse(mode) => s.(sending := s.sending - multiset{mode})
    case Watchdog(d) =>
      var t := s.(clock := s.clock + d);
      if Expired(s, timeout) then
        t.(lastCommand := t.clock, falling := true, fallbacks := s.fallbacks + [t.clock])
      else
        t
    case EnqueueFallback => s.(falling := false, pending := s.pending + [Normal])
    case RefuseFallback => s.(falling := false)
    case Supersede => s.(pending := s.pending[1..])
    case Take => s.(worker := Starting(s.pending[0], 1), pending := s.pending[1..])
    case Start =>
      if s.worker.target == s.memory.Current() then Finish(s)
      else s.(worker := Reading(s.worker.target, s.worker.attempt, s.memory.Current()))
    case Read(io) =>
      if io == Ok then s.(worker := Deciding(s.worker.target, s.worker.attempt, s.worker.from, s.register))
      else Fail(s, io)
    case Decide =>
      var (want, saved, hasSaved) := Decided(s.memory, s.worker.target, s.worker.from, s.worker.code);
      if want == s.worker.code then
        s.(worker := Committing(s.worker.target, s.worker.attempt, saved, hasSaved))
      else
        s.(worker := Writing(s.worker.target, s.worker.attempt, want, saved, hasSaved))
    case Write(io) =>
      if io == Ok then
        s.(register := s.worker.want,
           worker := Committing(s.worker.target, s.worker.attempt, s.worker.saved, s.worker.hasSaved))
      else if io == Lost then
        Fail(s.(register := s.worker.want), io)
      else
        Fail(s, io)
    case Commit =>
      var target := s.worker.target;
      Finish(s.(memory := Memory(Some(target), s.worker.saved, s.worker.hasSaved && target != Normal)))
    case Retry => s.(worker := Starting(s.worker.target, s.worker.attempt + 1))
    case GiveUp => Finish(s)
  }

  predicate Legal(s: State, es: seq<Event>, timeout: int)
    decreases |es|
  {
    es == [] || (Enabled(s, es[0]) && Legal(Fire(s, es[0], timeout), es[1..], timeout))
  }

  function Run(s: State, es: seq<Event>, timeout: int): State
    requires Legal(s, es, timeout)
    decreases |es|
  {
    if es == [] then s else Run(Fire(s, es[0], timeout), es[1..], timeout)
  }

  /** The events are legal and lead from s to t. */
  ghost predicate Leads(s: State, es: seq<Event>, t: State, timeout: int) {
    Legal(s, es, timeout) && Run(s, es, timeout) == t
  }

  lemma First(s: State, e: Event, es: seq<Event>, t: State, timeout: int)
    requires Enabled(s, e) && Leads(Fire(s, e, timeout), es, t, timeout)
    ensures Leads(s, [e] + es, t, timeout)
  {
    assert ([e] + es)[1..] == es;
    hide Fire;
  }

  lemma {:induction false} Joined(s: State, es: seq<Event>, t: State, fs: seq<Event>, u: State, timeout: int)
    requires Leads(s, es, t, timeout) && Leads(t, fs, u, timeout)
    ensures Leads(s, es + fs, u, timeout)
    decreases |es|
  {
    if es == [] {
      assert es + fs == fs;
    } else {
      var n := Fire(s, es[0], timeout);
      assert (es + fs)[1..] == es[1..] + fs;
      Joined(n, es[1..], t, fs, u, timeout);
    }
  }

  // ---------------------------------------------------------------------------------------------
  // Safety
  // ---------------------------------------------------------------------------------------------

  /** The register value a battery mode stands for. */
  function Expected(m: Mode, home: int): int {
    if Code(m).Some? then Code(m).value else home
  }

  /** What is remembered and what the worker carries fit together, and normal is the operator's own. */
  ghost predicate Booked(s: State) {
    && (s.memory.Current() != Normal <==> s.memory.hasSaved)
    && (s.memory.hasSaved ==> s.memory.saved == s.home)
    && (s.memory.Current() == Normal && !s.worker.Committing? ==> s.register == s.home)
    && (match s.worker
        case Reading(target, _, from) => from == s.memory.Current() && target != from
        case Deciding(target, _, from, code) => from == s.memory.Current() && target != from && code == s.register
        case Writing(target, _, want, saved, hasSaved) =>
          target != s.memory.Current() && hasSaved && saved == s.home && want == Expected(target, s.home)
        case Committing(target, _, saved, hasSaved) =>
          hasSaved && saved == s.home && s.register == Expected(target, s.home)
        case _ => true)
  }

  /** And outside a change the register is what the applied mode stands for. */
  ghost predicate Inv(s: State) {
    Booked(s) && (!s.worker.Committing? ==> s.register == Expected(s.memory.Current(), s.home))
  }

  /** No write took effect and yet reported an error. */
  predicate NothingLost(es: seq<Event>) {
    forall i :: 0 <= i < |es| ==> es[i] != Write(Lost)
  }

  /** Every lost write of the run happens in hold or charge. */
  predicate LostOnlyAway(s: State, es: seq<Event>, timeout: int)
    requires Legal(s, es, timeout)
    decreases |es|
  {
    es == [] ||
    ((es[0] == Write(Lost) ==> s.memory.Current() != Normal) && LostOnlyAway(Fire(s, es[0], timeout), es[1..], timeout))
  }

  lemma BookedStep(s: State, e: Event, timeout: int)
    requires Booked(s) && Enabled(s, e) && (e == Write(Lost) ==> s.memory.Current() != Normal)
    ensures Booked(Fire(s, e, timeout))
    ensures !e.Operator? ==> Fire(s, e, timeout).home == s.home
  {
  }

  lemma InvStep(s: State, e: Event, timeout: int)
    requires Booked(s) && Enabled(s, e) && e != Write(Lost)
    ensures Inv(s) || e.Commit? ==> Inv(Fire(s, e, timeout))
    ensures !e.Operator? ==> Fire(s, e, timeout).home == s.home
  {
    BookedStep(s, e, timeout);
    RegisterStep(s, e, timeout);
    hide Booked, Fire;
  }

  lemma RegisterStep(s: State, e: Event, timeout: int)
    requires Booked(s) && Enabled(s, e) && e != Write(Lost)
    ensures
      var t := Fire(s, e, timeout);
      (!s.worker.Committing? ==> s.register == Expected(s.memory.Current(), s.home)) || e.Commit? ==>
        (!t.worker.Committing? ==> t.register == Expected(t.memory.Current(), t.home))
  {
  }

  lemma {:induction false} InvRun(s: State, es: seq<Event>, timeout: int)
    requires Inv(s) && Legal(s, es, timeout) && NothingLost(es)
    ensures Inv(Run(s, es, timeout))
    ensures (forall e :: e in es ==> !e.Operator?) ==> Run(s, es, timeout).home == s.home
    decreases |es|
  {
    if es != [] {
      assert NothingLost(es[1..]);
      InvStep(s, es[0], timeout);
      InvRun(Fire(s, es[0], timeout), es[1..], timeout);
    }
  }

  ghost predicate Reachable(s: State, timeout: int) {
    exists s0, es :: Initial(s0) && Legal(s0, es, timeout) && NothingLost(es) && Run(s0, es, timeout) == s
  }

  lemma EveryRun(s: State, timeout: int)
    requires Reachable(s, timeout)
    ensures Inv(s)
  {
    var s0, es :| Initial(s0) && Legal(s0, es, timeout) && NothingLost(es) && Run(s0, es, timeout) == s;
    InvRun(s0, es, timeout);
  }

  /**
   Outside a change under way, hold means the register is 258 and charge 259; a saved mode exists
   exactly in hold and charge, and it is the operator's own.
   */
  lemma ModeMatchesRegister(s: State, timeout: int)
    requires Reachable(s, timeout)
    ensures s.memory.hasSaved <==> s.memory.Current() in {Hold, Charge}
    ensures s.memory.hasSaved ==> s.memory.saved == s.home
    ensures !s.worker.Committing? ==>
      && (s.memory.Current() == Hold ==> s.register == 258)
      && (s.memory.Current() == Charge ==> s.register == 259)
      && (s.memory.Current() == Normal ==> s.register == s.home)
  {
    EveryRun(s, timeout);
  }

  /** The "nothing to restore" branch is never taken. */
  lemma AlwaysSomethingToRestore(s: State, timeout: int)
    requires Reachable(s, timeout) && s.worker.Deciding? && s.worker.target == Normal
    ensures s.memory.hasSaved && Decided(s.memory, Normal, s.worker.from, s.worker.code).0 == s.home
  {
    EveryRun(s, timeout);
  }

  lemma {:induction false} BookedRun(s: State, es: seq<Event>, timeout: int)
    requires Booked(s) && Legal(s, es, timeout) && LostOnlyAway(s, es, timeout) && forall e :: e in es ==> !e.Operator?
    ensures Booked(Run(s, es, timeout)) && Run(s, es, timeout).home == s.home
    decreases |es|
  {
    if es != [] {
      assert es[0] in es;
      BookedStep(s, es[0], timeout);
      hide Fire, Booked;
      BookedRun(Fire(s, es[0], timeout), es[1..], timeout);
    }
  }

  /**
   Whatever commands, failures, retries, fallbacks, dropped changes and even lost writes outside normal
   lie between: back in normal the register holds what it held in normal before, unless the operator
   himself changed it in normal.
   */
  lemma NormalIsRestored(s: State, w: seq<Event>, timeout: int)
    requires Reachable(s, timeout) && s.memory.Current() == Normal && !s.worker.Committing?
    requires Legal(s, w, timeout) && LostOnlyAway(s, w, timeout) && forall e :: e in w ==> !e.Operator?
    ensures
      var t := Run(s, w, timeout);
      t.memory.Current() == Normal && !t.worker.Committing? ==> t.register == s.register
  {
    EveryRun(s, timeout);
    BookedRun(s, w, timeout);
  }

  // ---------------------------------------------------------------------------------------------
  // A write that takes effect and reports an error
  // ---------------------------------------------------------------------------------------------

  /** A completed change sets register and mode right again, and they stay so. */
  lemma {:induction false} RepairedRun(s: State, es: seq<Event>, timeout: int)
    requires Booked(s) && Legal(s, es, timeout) && NothingLost(es)
    ensures Commit in es ==> Inv(Run(s, es, timeout))
    decreases |es|
  {
    if es != [] {
      assert NothingLost(es[1..]);
      BookedStep(s, es[0], timeout);
      InvStep(s, es[0], timeout);
      RepairedRun(Fire(s, es[0], timeout), es[1..], timeout);
      if es[0] == Commit {
        InvRun(Fire(s, es[0], timeout), es[1..], timeout);
      }
    }
  }

  /**
   After a write that took effect and reported an error, at whatever attempt, and whatever retries,
   commands, fallbacks and lost writes outside normal follow: a return to normal restores the
   operator's own mode if and only if the battery was not in normal when the write was lost. Leaving
   normal, the next attempt takes the new mode for his.
   */
  lemma LostWriteForgetsOperator(s: State, w: seq<Event>, timeout: int)
    requires Inv(s) && s.worker.Writing? && s.worker.want != s.register
    requires Legal(Fire(s, Write(Lost), timeout), w, timeout) && LostOnlyAway(Fire(s, Write(Lost), timeout), w, timeout)
    requires forall e :: e in w ==> !e.Operator?
    ensures
      var t := Run(Fire(s, Write(Lost), timeout), w, timeout);
      t.memory.Current() == Normal && !t.worker.Committing? ==>
        (t.register == s.home <==> s.memory.Current() != Normal)
  {
    var l := Fire(s, Write(Lost), timeout);
    if s.memory.Current() == Normal {
      HomeIsHistory(l, l.register, w, timeout);
      BookedRun(l.(home := l.register), w, timeout);
    } else {
      BookedRun(l, w, timeout);
    }
  }

  lemma HomeStep(s: State, home: int, e: Event, timeout: int)
    requires Enabled(s, e) && !e.Operator?
    ensures Enabled(s.(home := home), e)
    ensures Fire(s.(home := home), e, timeout) == Fire(s, e, timeout).(home := home)
  {
    hide Decided;
  }

  /** Nothing decides by `home`: as long as the operator does nothing, any value may stand there. */
  lemma {:induction false} HomeIsHistory(s: State, home: int, es: seq<Event>, timeout: int)
    requires Legal(s, es, timeout) && forall e :: e in es ==> !e.Operator?
    ensures Legal(s.(home := home), es, timeout)
    ensures Run(s.(home := home), es, timeout) == Run(s, es, timeout).(home := home)
    ensures LostOnlyAway(s, es, timeout) ==> LostOnlyAway(s.(home := home), es, timeout)
    decreases |es|
  {
    if es != [] {
      assert es[0] in es;
      HomeStep(s, home, es[0], timeout);
      hide Fire;
      HomeIsHistory(Fire(s, es[0], timeout), home, es[1..], timeout);
    }
  }

  /**
   In hold and charge such a write puts the register at odds with the mode, and the next completed
   change sets both right again.
   */
  lemma LostWriteUntilNextChange(s: State, w: seq<Event>, timeout: int)
    requires Inv(s) && s.worker.Writing? && s.worker.want != s.register && s.memory.Current() != Normal
    requires Legal(Fire(s, Write(Lost), timeout), w, timeout) && NothingLost(w)
    ensures !Inv(Fire(s, Write(Lost), timeout))
    ensures Commit in w ==> Inv(Run(Fire(s, Write(Lost), timeout), w, timeout))
  {
    RepairedRun(Fire(s, Write(Lost), timeout), w, timeout);
  }

  // ---------------------------------------------------------------------------------------------
  // The last command
  // ---------------------------------------------------------------------------------------------

  /** The mode in force once everything queued is applied. */
  function LastTarget(s: State): Mode {
    if s.pending != [] then s.pending[|s.pending| - 1]
    else if !s.worker.Idle? then s.worker.target
    else s.memory.Current()
  }

  /** Working I/O, room in the queue, and nobody asking for anything new. */
  predicate Quiet(e: Event) {
    match e
    case Command(_) => false
    case Watchdog(_) => false
    case GiveUp => false
    case Read(io) => io == Ok
    case Write(io) => io == Ok
    case Supersede => false
    case Refuse(_) => false
    case RefuseFallback => false
    case _ => true
  }

  predicate AllQuiet(es: seq<Event>) {
    forall i :: 0 <= i < |es| ==> Quiet(es[i])
  }

  /** The queue is empty and the worker idle. */
  predicate Rested(s: State) {
    s.worker.Idle? && s.pending == []
  }

  predicate NoneInFlight(s: State) {
    s.sending == multiset{} && !s.falling
  }

  predicate Drained(s: State) {
    Rested(s) && NoneInFlight(s)
  }

  /** The mode queued last in `es`, or `start` when none is. */
  function LastQueued(es: seq<Event>, start: Mode): Mode {
    if es == [] then start
    else
      match es[|es| - 1]
      case Enqueue(mode) => mode
      case EnqueueFallback => Normal
      case _ => LastQueued(es[..|es| - 1], start)
  }

  lemma {:induction false} LastQueuedFrom(e: Event, es: seq<Event>, start: Mode)
    ensures LastQueued([e] + es, start) == LastQueued(es, LastQueued([e], start))
  {
    if es == [] {
      assert [e] + es == [e];
    } else {
      assert ([e] + es)[..|es|] == [e] + es[..|es| - 1];
      LastQueuedFrom(e, es[..|es| - 1], start);
    }
  }

  /** Only a send to the queue changes what it ends in. */
  lemma WorkerKeepsTarget(s: State, e: Event, timeout: int)
    requires Enabled(s, e) && Quiet(e) && !e.Enqueue? && !e.EnqueueFallback?
    ensures
      var t := Fire(s, e, timeout);
      LastTarget(t) == LastTarget(s) && t.sending == s.sending && t.falling == s.falling
  {
  }

  lemma SendSetsTarget(s: State, e: Event, timeout: int)
    requires Enabled(s, e) && (e.Enqueue? || e.EnqueueFallback?)
    ensures LastTarget(Fire(s, e, timeout)) == if e.Enqueue? then e.mode else Normal
  {
  }

  /** The order of queueing decides: what was queued last is what the drained queue ends in. */
  lemma {:induction false} QuietEndsInLastQueued(s: State, es: seq<Event>, timeout: int)
    requires Legal(s, es, timeout) && AllQuiet(es)
    ensures LastTarget(Run(s, es, timeout)) == LastQueued(es, LastTarget(s))
    decreases |es|
  {
    if es != [] {
      var e, rest := es[0], es[1..];
      assert Quiet(e) && [e][..0] == [];
      if e.Enqueue? || e.EnqueueFallback? {
        SendSetsTarget(s, e, timeout);
      } else {
        WorkerKeepsTarget(s, e, timeout);
      }
      hide Fire, LastTarget;
      assert LastTarget(Fire(s, e, timeout)) == LastQueued([e], LastTarget(s));
      QuietEndsInLastQueued(Fire(s, e, timeout), rest, timeout);
      LastQueuedFrom(e, rest, LastTarget(s));
      assert es == [e] + rest;
    }
  }

  lemma LastQueuedIsInForce(s: State, es: seq<Event>, timeout: int)
    requires Legal(s, es, timeout) && AllQuiet(es) && Rested(Run(s, es, timeout))
    ensures Run(s, es, timeout).memory.Current() == LastQueued(es, LastTarget(s))
  {
    QuietEndsInLastQueued(s, es, timeout);
  }

  /** Whatever is decided and not queued yet asks for mode m. */
  ghost predicate InFlightAgree(s: State, m: Mode) {
    (forall x :: x in s.sending ==> x == m) && (s.falling ==> m == Normal)
  }

  /** In every way to drain the queue from here, mode m is in force in the end. */
  ghost predicate EndsIn(s: State, m: Mode, timeout: int) {
    forall es :: Legal(s, es, timeout) && AllQuiet(es) && Drained(Run(s, es, timeout)) ==>
      Run(s, es, timeout).memory.Current() == m
  }

  /** Every mode in flight is m, and m is in flight or the last mode on its way already. */
  ghost predicate Leaning(s: State, m: Mode) {
    InFlightAgree(s, m) && (NoneInFlight(s) ==> LastTarget(s) == m)
  }

  lemma {:induction false} LeaningRun(s: State, m: Mode, es: seq<Event>, timeout: int)
    requires Leaning(s, m) && Legal(s, es, timeout) && AllQuiet(es)
    ensures Leaning(Run(s, es, timeout), m)
    decreases |es|
  {
    if es != [] {
      assert Quiet(es[0]);
      LeaningStep(s, m, es[0], timeout);
      LeaningRun(Fire(s, es[0], timeout), m, es[1..], timeout);
    }
  }

  lemma LeaningStep(s: State, m: Mode, e: Event, timeout: int)
    requires Leaning(s, m) && Enabled(s, e) && Quiet(e)
    ensures Leaning(Fire(s, e, timeout), m)
  {
    if e.Enqueue? || e.EnqueueFallback? {
      SendSetsTarget(s, e, timeout);
      hide LastTarget;
    } else {
      WorkerKeepsTarget(s, e, timeout);
      hide Fire, LastTarget;
    }
  }

  /** The worker's next event when every register access works. */
  function NextEvent(s: State): Event
    requires !Rested(s)
  {
    match s.worker
    case Idle => Take
    case Starting(_, _) => Start
    case Reading(_, _, _) => Read(Ok)
    case Deciding(_, _, _, _) => Decide
    case Writing(_, _, _, _, _) => Write(Ok)
    case Committing(_, _, _, _) => Commit
    case Backoff(_, _) => Retry
  }

  /** An upper bound on the events left for the worker. */
  function WorkLeft(s: State): nat {
    7 * |s.pending| +
    match s.worker
    case Idle => 0
    case Committing(_, _, _, _) => 1
    case Writing(_, _, _, _, _) => 2
    case Deciding(_, _, _, _) => 3
    case Reading(_, _, _) => 4
    case Starting(_, _) => 5
    case Backoff(_, _) => 6
  }

  /** With nothing in flight the worker can drain the queue, and ends in the last mode on its way. */
  lemma {:induction false} WorkOff(s: State, timeout: int) returns (es: seq<Event>, t: State)
    requires NoneInFlight(s)
    ensures Leads(s, es, t, timeout) && AllQuiet(es) && Drained(t) && t.memory.Current() == LastTarget(s)
    decreases WorkLeft(s)
  {
    if Rested(s) {
      es, t := [], s;
    } else {
      var e := NextEvent(s);
      var n := Fire(s, e, timeout);
      assert Enabled(s, e) && NoneInFlight(n) && LastTarget(n) == LastTarget(s) && WorkLeft(n) < WorkLeft(s);
      es, t := WorkOff(n, timeout);
      First(s, e, es, t, timeout);
      es := [e] + es;
    }
  }

  predicate InFlight(s: State, m: Mode) {
    m in s.sending || (s.falling && m == Normal)
  }

  /** A mode some element of a non-empty bag has. */
  lemma PickMode(bag: multiset<Mode>) returns (m: Mode)
    requires bag != multiset{}
    ensures m in bag
  {
    m := if Hold in bag then Hold else if Charge in bag then Charge else Normal;
    if m !in bag {
      forall x ensures x !in bag {
        assert x == Normal || x == Hold || x == Charge;
      }
    }
  }

  function CountInFlight(s: State): nat {
    |s.sending| + if s.falling then 1 else 0
  }

  /** The next one to queue so that m is queued last. */
  lemma NextToQueue(s: State, m: Mode) returns (e: Event)
    requires InFlight(s, m)
    ensures e == EnqueueFallback || e.Enqueue?
    ensures e == EnqueueFallback ==> s.falling && (m in s.sending || (m == Normal && s.sending == multiset{}))
    ensures e.Enqueue? ==> e.mode in s.sending && (s.falling ==> m == Normal && m !in s.sending)
    ensures e.Enqueue? && !s.falling ==>
      e.mode in s.sending - multiset{m} || (e.mode == m && s.sending - multiset{m} == multiset{})
  {
    if s.falling && (m in s.sending || s.sending == multiset{}) {
      e := EnqueueFallback;
    } else if s.falling {
      var x := PickMode(s.sending);
      e := Enqueue(x);
    } else if s.sending - multiset{m} == multiset{} {
      e := Enqueue(m);
    } else {
      var x := PickMode(s.sending - multiset{m});
      e := Enqueue(x);
    }
  }

  lemma QueueOne(s: State, m: Mode, timeout: int) returns (e: Event)
    requires InFlight(s, m)
    ensures Enabled(s, e) && Quiet(e)
    ensures
      var t := Fire(s, e, timeout);
      CountInFlight(t) < CountInFlight(s) && (InFlight(t, m) || (NoneInFlight(t) && LastTarget(t) == m))
  {
    e := NextToQueue(s, m);
    SendSetsTarget(s, e, timeout);
    hide LastTarget;
    if e.Enqueue? {
      var rest := s.sending - multiset{e.mode};
      assert |rest| == |s.sending| - 1;
      assert !s.falling && e.mode != m ==> m in rest;
      assert !s.falling && e.mode == m && m in s.sending - multiset{m} ==> m in rest;
    }
  }

  /** Whatever is in flight can be queued last. */
  lemma {:induction false} QueueLast(s: State, m: Mode, timeout: int) returns (es: seq<Event>, t: State)
    requires InFlight(s, m)
    ensures Leads(s, es, t, timeout) && AllQuiet(es) && NoneInFlight(t) && LastTarget(t) == m
    decreases CountInFlight(s)
  {
    var e := QueueOne(s, m, timeout);
    hide Fire, LastTarget, CountInFlight, InFlight, NoneInFlight;
    var n := Fire(s, e, timeout);
    if InFlight(n, m) {
      es, t := QueueLast(n, m, timeout);
    } else {
      es, t := [], n;
    }
    First(s, e, es, t, timeout);
    es := [e] + es;
  }

  /**
   Exactly when a command is sure to win, whatever the order in which the queue is drained with
   working I/O: when every command decided before it and still to be queued, the watchdog's fallback
   included, asks for the same mode; and it is queued itself (it differs from the applied mode), or
   such a one is still to be queued, or the last mode queued or in hand is the same.
   */
  lemma LastCommandWins(s: State, m: Mode, timeout: int)
    ensures EndsIn(Fire(s, Command(m), timeout), m, timeout) <==>
      InFlightAgree(s, m) && (m != s.memory.Current() || !NoneInFlight(s) || LastTarget(s) == m)
  {
    var c := Fire(s, Command(m), timeout);
    if InFlightAgree(s, m) && (m != s.memory.Current() || !NoneInFlight(s) || LastTarget(s) == m) {
      assert m != s.memory.Current() ==> m in c.sending;
      forall es | Legal(c, es, timeout) && AllQuiet(es) && Drained(Run(c, es, timeout))
        ensures Run(c, es, timeout).memory.Current() == m
      {
        LeaningRun(c, m, es, timeout);
      }
    } else {
      var es, t := LosingRun(s, m, timeout);
      assert Drained(Run(c, es, timeout));
    }
  }

  lemma LosingRun(s: State, m: Mode, timeout: int) returns (es: seq<Event>, t: State)
    requires !(InFlightAgree(s, m) && (m != s.memory.Current() || !NoneInFlight(s) || LastTarget(s) == m))
    ensures Leads(Fire(s, Command(m), timeout), es, t, timeout) && AllQuiet(es)
    ensures Drained(t) && t.memory.Current() != m
  {
    var c := Fire(s, Command(m), timeout);
    if InFlightAgree(s, m) {
      es, t := WorkOff(c, timeout);
    } else {
      var x := if s.falling && m != Normal then Normal else if Hold in s.sending && m != Hold then Hold
        else if Charge in s.sending && m != Charge then Charge else Normal;
      assert x != m && InFlight(s, x) && InFlight(c, x);
      var fs, u := QueueLast(c, x, timeout);
      var gs, v := WorkOff(u, timeout);
      Joined(c, fs, u, gs, v, timeout);
      es, t := fs + gs, v;
    }
  }

  // ---------------------------------------------------------------------------------------------
  // Every change is accounted for
  // ---------------------------------------------------------------------------------------------

  function Ones(b: bool): nat {
    if b then 1 else 0
  }

  /** How many changes to `m` are decided on and not finished: being sent, queued, or in the worker's hand. */
  function UnderWay(s: State, m: Mode): nat {
    s.sending[m] + Ones(s.falling && m == Normal) + multiset(s.pending)[m] + InHand(s, m)
  }

  function InHand(s: State, m: Mode): nat {
    Ones(!s.worker.Idle? && s.worker.target == m)
  }

  /** The event decides on a change to m: a command for another mode, or the watchdog's fallback. */
  predicate Adds(s: State, e: Event, m: Mode, timeout: int)
    requires Enabled(s, e)
  {
    || (e == Command(m) && m != s.memory.Current())
    || (e.Watchdog? && m == Normal && Fire(s, e, timeout).fallbacks != s.fallbacks)
  }

  /** The event puts an end to a change to m: the queue refuses it or drops it as its oldest, or it is finished. */
  predicate Removes(s: State, e: Event, m: Mode, timeout: int)
    requires Enabled(s, e)
  {
    || e == Refuse(m)
    || (e == RefuseFallback && m == Normal)
    || (e == Supersede && s.pending[0] == m)
    || (!s.worker.Idle? && s.worker.target == m && Fire(s, e, timeout).done > s.done)
  }

  function Added(s: State, es: seq<Event>, m: Mode, timeout: int): nat
    requires Legal(s, es, timeout)
    decreases |es|
  {
    if es == [] then 0
    else Ones(Adds(s, es[0], m, timeout)) + Added(Fire(s, es[0], timeout), es[1..], m, timeout)
  }

  function Removed(s: State, es: seq<Event>, m: Mode, timeout: int): nat
    requires Legal(s, es, timeout)
    decreases |es|
  {
    if es == [] then 0
    else Ones(Removes(s, es[0], m, timeout)) + Removed(Fire(s, es[0], timeout), es[1..], m, timeout)
  }

  lemma PendingSplits(s: State, m: Mode)
    requires s.pending != []
    ensures multiset(s.pending)[m] == Ones(s.pending[0] == m) + multiset(s.pending[1..])[m]
  {
    assert s.pending == [s.pending[0]] + s.pending[1..];
    assert multiset(s.pending) == multiset{s.pending[0]} + multiset(s.pending[1..]);
  }

  lemma WorkerAccount(s: State, e: Event, m: Mode, timeout: int)
    requires Enabled(s, e) && WorkerEvent(e) && e != Take
    ensures
      var t := Fire(s, e, timeout);
      && t.sending == s.sending && t.falling == s.falling && t.pending == s.pending
      && InHand(t, m) + Ones(Removes(s, e, m, timeout)) == InHand(s, m)
  {
  }

  lemma SenderAccount(s: State, e: Event, m: Mode, timeout: int)
    requires Enabled(s, e) && !WorkerEvent(e) && !e.Enqueue? && e != EnqueueFallback && e != Supersede
    ensures
      var t := Fire(s, e, timeout);
      UnderWay(t, m) + Ones(Removes(s, e, m, timeout)) == UnderWay(s, m) + Ones(Adds(s, e, m, timeout))
  {
  }

  lemma QueueAccount(s: State, e: Event, m: Mode, timeout: int)
    requires Enabled(s, e) && e in {Take, Supersede}
    ensures
      var t := Fire(s, e, timeout);
      UnderWay(t, m) + Ones(Removes(s, e, m, timeout)) == UnderWay(s, m)
  {
    PendingSplits(s, m);
  }

  lemma EnqueueAccount(s: State, e: Event, m: Mode, timeout: int)
    requires Enabled(s, e) && (e.Enqueue? || e == EnqueueFallback)
    ensures
      var t := Fire(s, e, timeout);
      UnderWay(t, m) == UnderWay(s, m) && !Removes(s, e, m, timeout) && !Adds(s, e, m, timeout)
  {
  }

  lemma AccountStep(s: State, e: Event, m: Mode, timeout: int)
    requires Enabled(s, e)
    ensures
      var t := Fire(s, e, timeout);
      UnderWay(t, m) + Ones(Removes(s, e, m, timeout)) == UnderWay(s, m) + Ones(Adds(s, e, m, timeout))
  {
    if e == Take || e == Supersede {
      QueueAccount(s, e, m, timeout);
      hide Fire, UnderWay, Removes;
    } else if WorkerEvent(e) {
      WorkerAccount(s, e, m, timeout);
      hide Fire, InHand, Removes;
    } else if e.Enqueue? || e == EnqueueFallback {
      EnqueueAccount(s, e, m, timeout);
      hide Fire, UnderWay, Adds, Removes;
    } else {
      SenderAccount(s, e, m, timeout);
      hide *;
    }
  }

  /** Over every run, no change is lost or doubled: what is decided on is under way, finished or dropped. */
  lemma {:induction false} EveryChangeIsAccountedFor(s: State, es: seq<Event>, m: Mode, timeout: int)
    requires Legal(s, es, timeout)
    ensures UnderWay(Run(s, es, timeout), m) + Removed(s, es, m, timeout) == UnderWay(s, m) + Added(s, es, m, timeout)
    ensures Initial(s) ==> UnderWay(s, m) == 0
    decreases |es|
  {
    if es != [] {
      AccountStep(s, es[0], m, timeout);
      hide Fire, UnderWay, Adds, Removes, Enabled;
      EveryChangeIsAccountedFor(Fire(s, es[0], timeout), es[1..], m, timeout);
    }
  }

  // ---------------------------------------------------------------------------------------------
  // Three tries, and when they end
  // ---------------------------------------------------------------------------------------------

  predicate TriesRight(s: State) {
    && (!s.worker.Idle? ==> 1 <= s.worker.attempt <= 3)
    && (s.worker.Backoff? ==> s.worker.attempt < 3)
  }

  /** A register access ends the command: a final error, or an error of its third try. */
  predicate EndsByError(s: State, e: Event)
    requires !s.worker.Idle?
  {
    (e.Read? || e.Write?) && (e.io == Final || (e.io != Ok && s.worker.attempt == 3))
  }

  lemma AccessEndsExactly(s: State, e: Event, timeout: int)
    requires TriesRight(s) && !s.worker.Idle? && Enabled(s, e) && (e.Read? || e.Write?)
    ensures
      var t := Fire(s, e, timeout);
      (t.done == s.done + 1 <==> t.worker.Idle?) && (t.worker.Idle? <==> EndsByError(s, e))
  {
  }

  /** The worker lets go of a command exactly when it is applied or was already, has failed, or is cancelled. */
  lemma EndsExactly(s: State, e: Event, timeout: int)
    requires TriesRight(s) && !s.worker.Idle? && Enabled(s, e)
    ensures
      var t := Fire(s, e, timeout);
      && (t.done == s.done + 1 <==> t.worker.Idle?)
      && (t.worker.Idle? <==>
            e == Commit || e == GiveUp || (e == Start && s.memory.Current() == s.worker.target) || EndsByError(s, e))
  {
    if e.Read? || e.Write? {
      AccessEndsExactly(s, e, timeout);
      hide Fire, EndsByError;
    }
  }

  /** Until then it keeps the command, and counts its tries. */
  lemma TriesStep(s: State, e: Event, timeout: int)
    requires TriesRight(s) && !s.worker.Idle? && Enabled(s, e)
    ensures
      var t := Fire(s, e, timeout);
      && TriesRight(t)
      && (t.worker.Idle? || (t.worker.target == s.worker.target &&
                             t.worker.attempt == if e == Retry then s.worker.attempt + 1 else s.worker.attempt))
  {
  }

  /** No command is tried more than three times. */
  lemma {:induction false} ThreeTries(s: State, es: seq<Event>, timeout: int)
    requires TriesRight(s) && Legal(s, es, timeout)
    ensures TriesRight(Run(s, es, timeout))
    ensures forall s0: State :: Initial(s0) ==> TriesRight(s0)
    decreases |es|
  {
    if es != [] {
      if !s.worker.Idle? {
        TriesStep(s, es[0], timeout);
      }
      ThreeTries(Fire(s, es[0], timeout), es[1..], timeout);
    }
  }

  // ---------------------------------------------------------------------------------------------
  // Runs in which it goes wrong
  // ---------------------------------------------------------------------------------------------

  /** The inverter starts in a mode of its own. */
  const START :=
    State(Memory(None, 0, false), 0, 0, 7, multiset{}, false, [], Idle, 7, 0, [])

  /** A command that is queued at once. */
  function Sent(m: Mode): seq<Event> {
    [Command(m)] + [Enqueue(m)]
  }

  /** The worker's events up to its decision. */
  function UpToDecision(rest: seq<Event>): seq<Event> {
    [Take] + ([Start] + ([Read(Ok)] + ([Decide] + rest)))
  }

  const APPLIED := UpToDecision([Write(Ok)] + [Commit])

  lemma One(s: State, e: Event, timeout: int)
    requires Enabled(s, e)
    ensures Leads(s, [e], Fire(s, e, timeout), timeout)
  {
    var t := Fire(s, e, timeout);
    assert Leads(t, [], t, timeout) && [e] + [] == [e];
    First(s, e, [], t, timeout);
  }

  lemma SentRuns(s: State, m: Mode, timeout: int)
    requires m != s.memory.Current()
    ensures Leads(s, Sent(m), s.(lastCommand := s.clock, pending := s.pending + [m]), timeout)
  {
    var c := Fire(s, Command(m), timeout);
    assert s.sending + multiset{m} - multiset{m} == s.sending;
    One(c, Enqueue(m), timeout);
    hide Leads;
    First(s, Command(m), [Enqueue(m)], Fire(c, Enqueue(m), timeout), timeout);
  }

  /** The state after the worker has taken and decided an undisturbed change. */
  function AfterDecision(s: State): State
    requires s.pending != []
  {
    var m := s.pending[0];
    var (want, saved, hasSaved) := Decided(s.memory, m, s.memory.Current(), s.register);
    s.(pending := s.pending[1..],
       worker := if want == s.register then Committing(m, 1, saved, hasSaved) else Writing(m, 1, want, saved, hasSaved))
  }

  lemma DecisionRuns(s: State, rest: seq<Event>, t: State, timeout: int)
    requires s.worker.Idle? && s.pending != [] && s.pending[0] != s.memory.Current()
    requires Leads(AfterDecision(s), rest, t, timeout)
    ensures Leads(s, UpToDecision(rest), t, timeout)
  {
    hide Leads;
    var a := Fire(s, Take, timeout);
    var b := Fire(a, Start, timeout);
    var c := Fire(b, Read(Ok), timeout);
    assert Fire(c, Decide, timeout) == AfterDecision(s);
    hide Fire, AfterDecision;
    var e2 := [Decide] + rest;
    var e1 := [Read(Ok)] + e2;
    First(c, Decide, rest, t, timeout);
    First(b, Read(Ok), e2, t, timeout);
    First(a, Start, e1, t, timeout);
    First(s, Take, [Start] + e1, t, timeout);
  }

  lemma WrittenRuns(s: State, timeout: int)
    requires s.worker.Writing?
    ensures Leads(s, [Write(Ok)] + [Commit], Fire(Fire(s, Write(Ok), timeout), Commit, timeout), timeout)
  {
    var w := Fire(s, Write(Ok), timeout);
    One(w, Commit, timeout);
    hide Leads;
    First(s, Write(Ok), [Commit], Fire(w, Commit, timeout), timeout);
  }

  /** A change that writes the register, undisturbed. */
  lemma AppliedRuns(s: State, timeout: int)
    requires s.worker.Idle? && s.pending != [] && s.pending[0] != s.memory.Current()
    requires AfterDecision(s).worker.Writing?
    ensures
      var m := s.pending[0];
      var (want, saved, hasSaved) := Decided(s.memory, m, s.memory.Current(), s.register);
      Leads(s, APPLIED,
            s.(register := want, memory := Memory(Some(m), saved, hasSaved && m != Normal),
               pending := s.pending[1..], done := s.done + 1), timeout)
  {
    var d := AfterDecision(s);
    WrittenRuns(d, timeout);
    hide Leads, Decided;
    DecisionRuns(s, [Write(Ok)] + [Commit], Fire(Fire(d, Write(Ok), timeout), Commit, timeout), timeout);
  }

  const HELD := START.(register := 258, memory := Memory(Some(Hold), 7, true), done := 1)

  lemma HoldRuns(timeout: int)
    ensures Leads(START, Sent(Hold) + APPLIED, HELD, timeout)
  {
    var queued := START.(pending := [Hold]);
    SentRuns(START, Hold, timeout);
    AppliedRuns(queued, timeout);
    hide Leads, Sent;
    Joined(START, Sent(Hold), queued, APPLIED, HELD, timeout);
  }

  /** Hold is in force, charge is queued, and evcc changes its mind back to hold. */
  const LOST_COMMAND := (Sent(Hold) + APPLIED) + (Sent(Charge) + ([Command(Hold)] + APPLIED))

  /** The last command is lost: hold equals the mode applied last, so charge stays. */
  lemma CommandCanBeLost(timeout: int)
    ensures Initial(START)
    ensures
      exists t :: Leads(START, LOST_COMMAND, t, timeout) && Drained(t) && t.memory.Current() == Charge
  {
    var asked := HELD.(pending := [Charge]);
    var t := asked.(register := 259, memory := Memory(Some(Charge), 7, true), pending := [], done := 2);
    HoldRuns(timeout);
    SentRuns(HELD, Charge, timeout);
    AppliedRuns(asked, timeout);
    hide Leads, Sent;
    assert Fire(asked, Command(Hold), timeout) == asked;
    First(asked, Command(Hold), APPLIED, t, timeout);
    hide Fire;
    var rest := [Command(Hold)] + APPLIED;
    Joined(HELD, Sent(Charge), asked, rest, t, timeout);
    Joined(START, Sent(Hold) + APPLIED, HELD, Sent(Charge) + rest, t, timeout);
  }

  /** After a lost write: the retry finds the new mode in the register. */
  const RETRIED := [Retry] + ([Start] + ([Read(Ok)] + ([Decide] + [Commit])))

  /** The write to hold is lost and retried; then back to normal, where nothing is left to write. */
  const FORGETTING :=
    (Sent(Hold) + UpToDecision([Write(Lost)] + RETRIED)) + (Sent(Normal) + UpToDecision([Commit]))

  /** The operator's mode 7 is forgotten: back in normal, the register holds hold's 258. */
  lemma OperatorModeCanBeForgotten(timeout: int)
    ensures
      exists t :: Leads(START, FORGETTING, t, timeout) && Drained(t)
        && t.memory.Current() == Normal && t.register == 258 && t.home == 7
  {
    var queued := START.(pending := [Hold]);
    var held := START.(register := 258, memory := Memory(Some(Hold), 258, true), done := 1);
    var asked := held.(pending := [Normal]);
    var t := held.(memory := Memory(Some(Normal), 258, false), done := 2);
    SentRuns(START, Hold, timeout);
    LostHoldRuns(queued, held, timeout);
    SentRuns(held, Normal, timeout);
    UnwrittenRuns(asked, t, timeout);
    hide Leads, Sent, UpToDecision;
    var lost := UpToDecision([Write(Lost)] + RETRIED);
    Joined(START, Sent(Hold), queued, lost, held, timeout);
    Joined(held, Sent(Normal), asked, UpToDecision([Commit]), t, timeout);
    Joined(START, Sent(Hold) + lost, held, Sent(Normal) + UpToDecision([Commit]), t, timeout);
  }

  lemma UnwrittenRuns(s: State, t: State, timeout: int)
    requires s.worker.Idle? && s.pending != [] && s.pending[0] != s.memory.Current()
    requires AfterDecision(s).worker.Committing? && t == Fire(AfterDecision(s), Commit, timeout)
    ensures Leads(s, UpToDecision([Commit]), t, timeout)
  {
    One(AfterDecision(s), Commit, timeout);
    hide Leads;
    DecisionRuns(s, [Commit], t, timeout);
  }

  lemma RetriedRuns(s: State, t: State, timeout: int)
    requires s == START.(register := 258, worker := Backoff(Hold, 1))
    requires t == START.(register := 258, memory := Memory(Some(Hold), 258, true), done := 1)
    ensures Leads(s, RETRIED, t, timeout)
  {
    var a := s.(worker := Starting(Hold, 2));
    var b := s.(worker := Reading(Hold, 2, Normal));
    var c := s.(worker := Deciding(Hold, 2, Normal, 258));
    var d := s.(worker := Committing(Hold, 2, 258, true));
    assert Fire(s, Retry, timeout) == a && Fire(a, Start, timeout) == b;
    assert Fire(b, Read(Ok), timeout) == c && Fire(c, Decide, timeout) == d && Fire(d, Commit, timeout) == t;
    One(d, Commit, timeout);
    hide Leads, Fire;
    var e2 := [Decide] + [Commit];
    var e1 := [Read(Ok)] + e2;
    First(c, Decide, [Commit], t, timeout);
    First(b, Read(Ok), e2, t, timeout);
    First(a, Start, e1, t, timeout);
    First(s, Retry, [Start] + e1, t, timeout);
  }

  lemma LostHoldRuns(s: State, t: State, timeout: int)
    requires s == START.(pending := [Hold])
    requires t == START.(register := 258, memory := Memory(Some(Hold), 258, true), done := 1)
    ensures Leads(s, UpToDecision([Write(Lost)] + RETRIED), t, timeout)
  {
    var d := START.(worker := Writing(Hold, 1, 258, 7, true));
    var l := START.(register := 258, worker := Backoff(Hold, 1));
    assert AfterDecision(s) == d && Fire(d, Write(Lost), timeout) == l;
    RetriedRuns(l, t, timeout);
    hide Leads, Fire, AfterDecision;
    First(d, Write(Lost), RETRIED, t, timeout);
    DecisionRuns(s, [Write(Lost)] + RETRIED, t, timeout);
  }

  /** The watchdog decides, charge is queued, and the fallback is queued after it. */
  function Overtaken(timeout: nat): seq<Event> {
    (Sent(Hold) + APPLIED) +
    ([Tick(timeout + 1)] + ([Watchdog(0)] + (Sent(Charge) + ([EnqueueFallback] + (APPLIED + APPLIED)))))
  }

  /** A command that is queued can lose to a fallback decided before it. */
  lemma FallbackCanOvertake(timeout: nat)
    ensures exists t :: Leads(START, Overtaken(timeout), t, timeout) && Drained(t) && t.memory.Current() == Normal
  {
    var late := HELD.(clock := timeout + 1);
    var falling := late.(falling := true, lastCommand := timeout + 1, fallbacks := [timeout + 1]);
    assert Fire(HELD, Tick(timeout + 1), timeout) == late && Fire(late, Watchdog(0), timeout) == falling;
    var t := OvertakingRuns(falling, timeout);
    HoldRuns(timeout);
    hide Leads, Sent, UpToDecision, Fire;
    var rest := Sent(Charge) + ([EnqueueFallback] + (APPLIED + APPLIED));
    First(late, Watchdog(0), rest, t, timeout);
    First(HELD, Tick(timeout + 1), [Watchdog(0)] + rest, t, timeout);
    Joined(START, Sent(Hold) + APPLIED, HELD, [Tick(timeout + 1)] + ([Watchdog(0)] + rest), t, timeout);
  }

  lemma OvertakingRuns(s: State, timeout: int) returns (t: State)
    requires Rested(s) && s.falling && s.sending == multiset{} && s.register == 258
    requires s.memory == Memory(Some(Hold), 7, true)
    ensures Leads(s, Sent(Charge) + ([EnqueueFallback] + (APPLIED + APPLIED)), t, timeout)
    ensures Drained(t) && t.memory.Current() == Normal
  {
    var asked := s.(lastCommand := s.clock, pending := [Charge]);
    var both := asked.(falling := false, pending := [Charge, Normal]);
    var charged := both.(register := 259, memory := Memory(Some(Charge), 7, true), pending := [Normal],
                         done := s.done + 1);
    t := charged.(register := 7, memory := Memory(Some(Normal), 7, false), pending := [], done := s.done + 2);
    SentRuns(s, Charge, timeout);
    assert Fire(asked, EnqueueFallback, timeout) == both;
    AppliedRuns(both, timeout);
    AppliedRuns(charged, timeout);
    hide Leads, Sent, Fire, AfterDecision;
    Joined(both, APPLIED, charged, APPLIED, t, timeout);
    First(asked, EnqueueFallback, APPLIED + APPLIED, t, timeout);
    Joined(s, Sent(Charge), asked, [EnqueueFallback] + (APPLIED + APPLIED), t, timeout);
  }

  // ---------------------------------------------------------------------------------------------
  // The watchdog
  // ---------------------------------------------------------------------------------------------

  ghost predicate Spaced(times: seq<int>, timeout: int) {
    forall i :: 0 < i < |times| ==> times[i] - times[i - 1] > timeout
  }

  /** The watchdog's clock is restarted by every command and every fallback. */
  ghost predicate ClockInv(s: State, timeout: int) {
    && s.lastCommand <= s.clock
    && Spaced(s.fallbacks, timeout)
    && (s.fallbacks != [] ==> s.fallbacks[|s.fallbacks| - 1] <= s.lastCommand)
  }

  /** Successive fallbacks are more than one timeout apart. */
  lemma {:induction false} FallbacksAreSpaced(s: State, es: seq<Event>, timeout: int)
    requires ClockInv(s, timeout) && Legal(s, es, timeout)
    ensures ClockInv(Run(s, es, timeout), timeout)
    decreases |es|
  {
    if es != [] {
      FallbacksAreSpaced(Fire(s, es[0], timeout), es[1..], timeout);
    }
  }

  /** An endless run: state i, then event i. */
  ghost predicate Behaviour(b: nat -> State, ev: nat -> Event, timeout: int) {
    forall i: nat :: Enabled(b(i), ev(i)) && b(i + 1) == Fire(b(i), ev(i), timeout)
  }

  predicate WorkerEvent(e: Event) {
    e.Take? || e.Start? || e.Read? || e.Decide? || e.Write? || e.Commit? || e.Retry? || e.GiveUp?
  }

  /** From n on: no commands, room in the queue, and every register access works. */
  ghost predicate Calm(ev: nat -> Event, n: nat) {
    forall i :: i >= n ==> Quiet(ev(i)) || ev(i).Watchdog?
  }

  predicate WorkerMoves(s: State, e: Event) {
    WorkerEvent(e) || Rested(s)
  }

  predicate SendersMove(s: State, e: Event) {
    e.Enqueue? || s.sending == multiset{}
  }

  predicate TicksAfter(s: State, e: Event, time: int) {
    e.Watchdog? && s.clock >= time
  }

  ghost predicate MovesFrom(b: nat -> State, ev: nat -> Event, i: nat) {
    exists j :: j >= i && WorkerMoves(b(j), ev(j))
  }

  ghost predicate SendsFrom(b: nat -> State, ev: nat -> Event, i: nat) {
    exists j :: j >= i && SendersMove(b(j), ev(j))
  }

  ghost predicate TicksFrom(b: nat -> State, ev: nat -> Event, i: nat, time: int) {
    exists j :: j >= i && TicksAfter(b(j), ev(j), time)
  }

  /**
   The worker always moves again while there is work, a decided command is always queued some time,
   and the watchdog ticks at ever later times.
   */
  ghost predicate Fair(b: nat -> State, ev: nat -> Event) {
    && (forall i: nat :: MovesFrom(b, ev, i))
    && (forall i: nat :: SendsFrom(b, ev, i))
    && (forall i: nat, time: int :: TicksFrom(b, ev, i, time))
  }

  /** How far the worker has come; every worker event moves it forward. */
  function Progress(s: State): nat {
    7 * s.done +
    match s.worker
    case Idle => 0
    case Backoff(_, _) => 1
    case Starting(_, _) => 2
    case Reading(_, _, _) => 3
    case Deciding(_, _, _, _) => 4
    case Writing(_, _, _, _, _) => 5
    case Committing(_, _, _, _) => 6
  }

  lemma ProgressStep(s: State, e: Event, timeout: int)
    requires Enabled(s, e) && (Quiet(e) || e.Watchdog?)
    ensures Progress(Fire(s, e, timeout)) >= Progress(s) + (if WorkerEvent(e) then 1 else 0)
  {
  }

  lemma {:induction false} ProgressMonotone(b: nat -> State, ev: nat -> Event, timeout: int, i: nat, j: nat)
    requires Behaviour(b, ev, timeout) && Calm(ev, i) && i <= j
    ensures Progress(b(i)) <= Progress(b(j))
    decreases j - i
  {
    if i < j {
      ProgressStep(b(i), ev(i), timeout);
      ProgressMonotone(b, ev, timeout, i + 1, j);
    }
  }

  /** The worker gets as far as asked, or runs out of work first. */
  lemma {:induction false} WorkerGetsThere(b: nat -> State, ev: nat -> Event, timeout: int, i: nat, goal: nat)
      returns (j: nat)
    requires Behaviour(b, ev, timeout) && Fair(b, ev) && Calm(ev, i)
    ensures j >= i && (Progress(b(j)) >= goal || Rested(b(j)))
    decreases goal - Progress(b(i))
  {
    j := i;
    if Progress(b(i)) < goal {
      assert MovesFrom(b, ev, i);
      var k :| k >= i && WorkerMoves(b(k), ev(k));
      j := k;
      if !Rested(b(k)) {
        ProgressMonotone(b, ev, timeout, i, k);
        ProgressStep(b(k), ev(k), timeout);
        j := WorkerGetsThere(b, ev, timeout, k + 1, goal);
      }
    }
  }

  function Held(s: State): nat {
    if s.worker.Idle? then 0 else 1
  }

  /** Whatever is not a return to normal will be finished by the time `d` commands are. */
  ghost predicate OthersDoneBy(s: State, d: nat) {
    && (!s.worker.Idle? && s.worker.target != Normal ==> s.done + 1 <= d)
    && (forall k :: 0 <= k < |s.pending| && s.pending[k] != Normal ==> s.done + Held(s) + k + 1 <= d)
  }

  ghost predicate OnlyNormals(s: State) {
    && s.sending == multiset{}
    && (!s.worker.Idle? ==> s.worker.target == Normal)
    && (forall k :: 0 <= k < |s.pending| ==> s.pending[k] == Normal)
  }

  /** Only returns to normal are left, and one is queued or in hand unless normal is in force already. */
  ghost predicate Returning(s: State, d: nat) {
    && OnlyNormals(s)
    && (s.memory.Current() == Normal || (s.done == d && !Rested(s)))
  }

  lemma SendingShrinks(s: State, e: Event, timeout: int)
    requires Enabled(s, e) && (Quiet(e) || e.Watchdog?)
    ensures |Fire(s, e, timeout).sending| <= |s.sending| - if e.Enqueue? then 1 else 0
    ensures s.sending == multiset{} ==> Fire(s, e, timeout).sending == multiset{}
  {
    if e.Enqueue? {
      assert |s.sending - multiset{e.mode}| == |s.sending| - 1;
    }
  }

  lemma {:induction false} SendingKept(b: nat -> State, ev: nat -> Event, timeout: int, i: nat, j: nat)
    requires Behaviour(b, ev, timeout) && Calm(ev, i) && i <= j
    ensures |b(j).sending| <= |b(i).sending|
    ensures b(i).sending == multiset{} ==> b(j).sending == multiset{}
    decreases j - i
  {
    if i < j {
      SendingShrinks(b(i), ev(i), timeout);
      SendingKept(b, ev, timeout, i + 1, j);
    }
  }

  /** Every command decided before the calm is queued some time. */
  lemma {:induction false} SendersFinish(b: nat -> State, ev: nat -> Event, timeout: int, i: nat) returns (j: nat)
    requires Behaviour(b, ev, timeout) && Fair(b, ev) && Calm(ev, i)
    ensures j >= i && b(j).sending == multiset{}
    decreases |b(i).sending|
  {
    assert SendsFrom(b, ev, i);
    j :| j >= i && SendersMove(b(j), ev(j));
    if b(j).sending != multiset{} {
      SendingKept(b, ev, timeout, i, j);
      SendingShrinks(b(j), ev(j), timeout);
      j := SendersFinish(b, ev, timeout, j + 1);
    }
  }

  lemma OthersDoneStep(s: State, e: Event, timeout: int, d: nat)
    requires Enabled(s, e) && (Quiet(e) || e.Watchdog?) && s.sending == multiset{} && OthersDoneBy(s, d)
    ensures OthersDoneBy(Fire(s, e, timeout), d)
  {
  }

  lemma {:induction false} OthersDoneKept(b: nat -> State, ev: nat -> Event, timeout: int, i: nat, j: nat, d: nat)
    requires Behaviour(b, ev, timeout) && Calm(ev, i) && i <= j && OthersDoneBy(b(i), d)
    requires b(i).sending == multiset{}
    ensures OthersDoneBy(b(j), d) && b(j).sending == multiset{}
    decreases j - i
  {
    if i < j {
      OthersDoneStep(b(i), ev(i), timeout, d);
      SendingShrinks(b(i), ev(i), timeout);
      OthersDoneKept(b, ev, timeout, i + 1, j, d);
    }
  }

  lemma ReturningStep(s: State, e: Event, timeout: int, d: nat)
    requires Enabled(s, e) && (Quiet(e) || e.Watchdog?) && Returning(s, d)
    ensures Returning(Fire(s, e, timeout), d)
    ensures s.memory.Current() == Normal ==> Fire(s, e, timeout).memory.Current() == Normal
  {
  }

  lemma {:induction false} ReturningKept(b: nat -> State, ev: nat -> Event, timeout: int, i: nat, j: nat, d: nat)
    requires Behaviour(b, ev, timeout) && Calm(ev, i) && i <= j && Returning(b(i), d)
    ensures Returning(b(j), d)
    ensures b(i).memory.Current() == Normal ==> b(j).memory.Current() == Normal
    decreases j - i
  {
    if i < j {
      ReturningStep(b(i), ev(i), timeout, d);
      ReturningKept(b, ev, timeout, i + 1, j, d);
    }
  }

  /** Once only returns to normal are left, normal comes as soon as the worker gets there. */
  lemma ReturnArrives(b: nat -> State, ev: nat -> Event, timeout: int, i: nat) returns (j: nat)
    requires Behaviour(b, ev, timeout) && Fair(b, ev) && Calm(ev, i) && Returning(b(i), b(i).done)
    ensures j >= i && OnlyNormals(b(j)) && b(j).memory.Current() == Normal
  {
    j := WorkerGetsThere(b, ev, timeout, i, 7 * b(i).done + 7);
    ReturningKept(b, ev, timeout, i, j, b(i).done);
  }

  /** What was decided or queued when the commands stopped is worked off. */
  lemma OthersAreFinished(b: nat -> State, ev: nat -> Event, timeout: int, n: nat) returns (j: nat)
    requires Behaviour(b, ev, timeout) && Fair(b, ev) && Calm(ev, n)
    ensures j >= n && OnlyNormals(b(j))
  {
    var i := SendersFinish(b, ev, timeout, n);
    var d := b(i).done + Held(b(i)) + |b(i).pending|;
    j := WorkerGetsThere(b, ev, timeout, i, 7 * d);
    OthersDoneKept(b, ev, timeout, i, j, d);
  }

  /** The last moment before the fallback's decision, or before it is queued. */
  lemma WaitingStep(s: State, e: Event, timeout: int)
    requires Enabled(s, e) && (Quiet(e) || e.Watchdog?) && OnlyNormals(s) && Rested(s)
    ensures
      var t := Fire(s, e, timeout);
      && OnlyNormals(t) && t.memory == s.memory && t.done == s.done
      && (e == EnqueueFallback ==> !Rested(t)) && (e != EnqueueFallback ==> Rested(t))
      && (t.falling <==> (s.falling && e != EnqueueFallback) || (e.Watchdog? && Expired(s, timeout)))
      && ((e.Watchdog? && Expired(s, timeout)) || t.lastCommand == s.lastCommand)
  {
  }

  /** A decided fallback is queued before the watchdog ticks again. */
  lemma {:induction false} FallbackArrives(b: nat -> State, ev: nat -> Event, timeout: int, i: nat, j: nat)
      returns (k: nat)
    requires Behaviour(b, ev, timeout) && Calm(ev, i) && i <= j && OnlyNormals(b(i))
    requires b(i).falling && ev(j).Watchdog?
    ensures k >= i && Returning(b(k), b(k).done)
    decreases j - i
  {
    k := i;
    if !Returning(b(i), b(i).done) {
      WaitingStep(b(i), ev(i), timeout);
      assert i < j;
      if ev(i) == EnqueueFallback {
        k := i + 1;
      } else {
        k := FallbackArrives(b, ev, timeout, i + 1, j);
      }
    }
  }

  /** Until the watchdog falls back, its clock and the applied mode stand still; and it does. */
  lemma {:induction false} UntilFallback(b: nat -> State, ev: nat -> Event, timeout: int, i: nat, j: nat)
      returns (k: nat)
    requires Behaviour(b, ev, timeout) && Fair(b, ev) && Calm(ev, i) && i <= j && OnlyNormals(b(i))
    requires b(j).clock > b(i).lastCommand + timeout && ev(j).Watchdog?
    ensures k >= i && Returning(b(k), b(k).done)
    decreases j - i
  {
    k := i;
    if !Returning(b(i), b(i).done) {
      if b(i).falling {
        k := FallbackArrives(b, ev, timeout, i, j);
      } else {
        WaitingStep(b(i), ev(i), timeout);
        if b(i + 1).falling {
          assert TicksFrom(b, ev, i + 1, 0);
          var l :| l >= i + 1 && TicksAfter(b(l), ev(l), 0);
          k := FallbackArrives(b, ev, timeout, i + 1, l);
        } else {
          assert i < j;
          k := UntilFallback(b, ev, timeout, i + 1, j);
        }
      }
    }
  }

  /**
   The watchdog's promise: in every endless run in which commands stop, the queue has room and register
   accesses work from then on, the worker and the senders keep moving and the watchdog keeps ticking,
   the battery comes back to normal and stays there, whatever was dropped, refused or failed before.
   */
  lemma BackToNormalForGood(b: nat -> State, ev: nat -> Event, timeout: int, n: nat) returns (m: nat)
    requires Behaviour(b, ev, timeout) && Fair(b, ev) && Calm(ev, n)
    ensures forall i :: i >= m ==> b(i).memory.Current() == Normal && OnlyNormals(b(i))
  {
    var i := OthersAreFinished(b, ev, timeout, n);
    assert TicksFrom(b, ev, i, b(i).lastCommand + timeout + 1);
    var j :| j >= i && TicksAfter(b(j), ev(j), b(i).lastCommand + timeout + 1);
    var k := UntilFallback(b, ev, timeout, i, j);
    m := ReturnArrives(b, ev, timeout, k);
    forall x | x >= m ensures b(x).memory.Current() == Normal && OnlyNormals(b(x)) {
      ReturningKept(b, ev, timeout, m, x, b(m).done);
    }
  }

  lemma {:induction false} BehaviourInv(b: nat -> State, ev: nat -> Event, timeout: int, i: nat)
    requires Behaviour(b, ev, timeout) && Inv(b(0)) && forall k: nat :: ev(k) != Write(Lost)
    ensures Inv(b(i))
  {
    if i > 0 {
      BehaviourInv(b, ev, timeout, i - 1);
      InvStep(b(i - 1), ev(i - 1), timeout);
    }
  }

  /** With no lost write the operator's own mode is back in the register, too, and stays. */
  lemma OperatorModeBackForGood(b: nat -> State, ev: nat -> Event, timeout: int, n: nat) returns (m: nat)
    requires Behaviour(b, ev, timeout) && Fair(b, ev) && Calm(ev, n)
    requires Initial(b(0)) && forall k: nat :: ev(k) != Write(Lost)
    ensures forall i :: i >= m ==> b(i).memory.Current() == Normal && b(i).register == b(i).home
  {
    m := BackToNormalForGood(b, ev, timeout, n);
    forall i | i >= m ensures b(i).memory.Current() == Normal && b(i).register == b(i).home {
      BehaviourInv(b, ev, timeout, i);
    }
  }

  // ---------------------------------------------------------------------------------------------
  // The code itself, undisturbed
  // ---------------------------------------------------------------------------------------------

  function Name(m: Mode): string {
    match m
    case Normal => "normal"
    case Hold => "hold"
    case Charge => "charge"
  }

  /** evcc's integers or the mode names, in any case and with white space around them. */
  function ParseMode(text: string): Option<Mode> {
    var word := Text.Lower(Text.TrimSpace(text));
    if word == "1" || word == Name(Normal) then Some(Normal)
    else if word == "2" || word == Name(Hold) then Some(Hold)
    else if word == "3" || word == Name(Charge) then Some(Charge)
    else None
  }

  /** What evcc's integers and the mode names mean. */
  ghost predicate Says(text: string, m: Mode) {
    match m
    case Normal => Text.Spells(text, "1") || Text.Spells(text, "normal")
    case Hold => Text.Spells(text, "2") || Text.Spells(text, "hold")
    case Charge => Text.Spells(text, "3") || Text.Spells(text, "charge")
  }

  /** A text is read as a mode exactly when it says so, whatever its case and the white space around it. */
  lemma ParsesExactly(text: string, m: Mode)
    ensures ParseMode(text) == Some(m) <==> Says(text, m)
  {
    hide Text.TrimSpace, Text.Lower, Text.Spells;
    Text.SpellsExactly(text, "1");
    Text.SpellsExactly(text, "2");
    Text.SpellsExactly(text, "3");
    Text.SpellsExactly(text, "normal");
    Text.SpellsExactly(text, "hold");
    Text.SpellsExactly(text, "charge");
    WordsDiffer();
  }

  lemma WordsDiffer()
    ensures "normal"[0] != "hold"[0] && "hold"[0] != "charge"[0] && "charge"[0] != "normal"[0]
    ensures |"1"| == |"2"| == |"3"| == 1 && "1"[0] != "2"[0] && "2"[0] != "3"[0] && "3"[0] != "1"[0]
  {
  }

  /** The worker reads back the mode that was put into the queue by name. */
  lemma NameParses(m: Mode)
    ensures ParseMode(Name(m)) == Some(m)
  {
    var name := Name(m);
    assert Text.SameLetters(name, name);
    assert name == "" + name + "" && Text.Blank("");
    assert Text.Spells(name, name);
    hide Text.Spells;
    ParsesExactly(name, m);
  }

  /** One `set` message: the wildcards of its topic and its payload. */
  datatype Message = Message(wildcards: seq<string>, structured: bool, text: string)

  /** The message asks this inverter for the mode; a message that asks for none is rejected. */
  ghost predicate Asks(msg: Message, serial: Option<string>, m: Mode) {
    && serial.Some? && msg.wildcards == [serial.value, "battery", "batterymode"]
    && !msg.structured && Says(msg.text, m)
  }

  /** evccState with the register it governs. */
  class Battery {
    var mode: Option<Mode>
    var saved: int
    var hasSaved: bool
    var lastCommand: int
    var register: int

    constructor (register: int)
      ensures View() == Memory(None, 0, false) && this.register == register && lastCommand == 0
    {
      mode, saved, hasSaved, lastCommand := None, 0, false, 0;
      this.register := register;
    }

    function View(): Memory
      reads this
    {
      Memory(mode, saved, hasSaved)
    }

    /** Returns the mode to queue, if any; `serial` is None until the topics are known. */
    method OnEVCCSet(msg: Message, serial: Option<string>, now: int) returns (queued: Option<Mode>)
      modifies this`lastCommand
      ensures forall m :: Asks(msg, serial, m) ==>
        lastCommand == now && queued == if m == View().Current() then None else Some(m)
      ensures (forall m :: !Asks(msg, serial, m)) ==> lastCommand == old(lastCommand) && queued == None
    {
      forall m: Mode ensures ParseMode(msg.text) == Some(m) <==> Says(msg.text, m) {
        ParsesExactly(msg.text, m);
      }
      hide ParseMode, Says;
      if serial == None || |msg.wildcards| != 3 || msg.wildcards[0] != serial.value {
        return None;
      }
      if msg.wildcards[1] != "battery" || msg.wildcards[2] != "batterymode" {
        return None;
      }
      assert msg.wildcards == [serial.value, "battery", "batterymode"];
      if msg.structured {
        return None;
      }
      var parsed := ParseMode(msg.text);
      if parsed == None {
        return None;
      }
      assert Asks(msg, serial, parsed.value);
      lastCommand := now;
      var same := mode == parsed || (mode == None && parsed == Some(Normal));
      return if same then None else parsed;
    }

    /** Returns whether the fallback is queued; `now` and `later` are the two looks at the clock. */
    method WatchdogTick(timeout: int, now: int, later: int) returns (queued: bool)
      modifies this`lastCommand
      ensures queued <==> View().Current() != Normal && now - old(lastCommand) > timeout
      ensures lastCommand == if queued then later else old(lastCommand)
    {
      var idle := now - lastCommand;
      queued := mode != None && mode != Some(Normal) && idle > timeout;
      if queued {
        lastCommand := later;
      }
    }

    /** One dispatch of a mode change; `read` and `write` are how the register accesses end. */
    method ApplyBatteryMode(target: Mode, read: Io, write: Io) returns (result: Io)
      requires read != Lost
      modifies this
      ensures lastCommand == old(lastCommand)
      ensures
        var from := old(View()).Current();
        var (want, keep, has) := Decided(old(View()), target, from, old(register));
        if target == from then result == Ok && View() == old(View()) && register == old(register)
        else if read != Ok then result == read && View() == old(View()) && register == old(register)
        else if want != old(register) && write != Ok then
          result == write && View() == old(View()) && register == if write == Lost then want else old(register)
        else
          result == Ok && register == want && View() == Memory(Some(target), keep, has && target != Normal)
    {
      var from := if mode == None then Normal else mode.value;
      if target == from {
        return Ok;
      }
      if read != Ok {
        return read;
      }
      var code := register;
      var keep, has := saved, hasSaved;
      if from == Normal {
        keep, has := code, true;
      }
      var want := code;
      if Code(target).Some? {
        want := Code(target).value;
      } else if has {
        want := keep;
      }
      if want != code {
        if write == Ok || write == Lost {
          register := want;
        }
        if write != Ok {
          return write;
        }
      }
      mode := Some(target);
      saved, hasSaved := keep, has && target != Normal;
      return Ok;
    }
  }

  /** The handlers, undisturbed: the step system decides what OnEVCCSet and WatchdogTick decide. */
  lemma UndisturbedHandlers(s: State, m: Mode, d: nat, timeout: int)
    requires !s.falling
    ensures
      var t := Fire(s, Watchdog(d), timeout);
      && (t.falling <==> s.memory.Current() != Normal && s.clock - s.lastCommand > timeout)
      && t == s.(clock := s.clock + d, falling := t.falling,
                 lastCommand := if t.falling then s.clock + d else s.lastCommand,
                 fallbacks := if t.falling then s.fallbacks + [s.clock + d] else s.fallbacks)
    ensures
      var t := Fire(s, Command(m), timeout);
      && t.lastCommand == s.clock
      && t.sending == if m == s.memory.Current() then s.sending else s.sending + multiset{m}
  {
  }

  /** One attempt of the worker, undisturbed: the step system does what ApplyBatteryMode does. */
  lemma UndisturbedAttempt(s: State, write: Io, timeout: int)
    requires s.worker.Starting? && s.worker.target != s.memory.Current()
    ensures
      var (target, from) := (s.worker.target, s.memory.Current());
      var (want, keep, has) := Decided(s.memory, target, from, s.register);
      var decided := Fire(Fire(Fire(s, Start, timeout), Read(Ok), timeout), Decide, timeout);
      if want == s.register then
        Fire(decided, Commit, timeout) ==
        s.(memory := Memory(Some(target), keep, has && target != Normal), worker := Idle, done := s.done + 1)
      else
        && decided.worker.Writing?
        && Fire(Fire(decided, Write(Ok), timeout), Commit, timeout)
           == s.(register := want, memory := Memory(Some(target), keep, has && target != Normal),
                 worker := Idle, done := s.done + 1)
        && Fire(decided, Write(Lost), timeout).register == want
        && (write in {Transient, Final} ==>
              && Fire(decided, Write(write), timeout).register == s.register
              && Fire(decided, Write(write), timeout).memory == s.memory)
  {
  }
}
