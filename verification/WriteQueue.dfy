/**
 The write queue: any number of callers of enqueueWrite (the MQTT router, web handlers, the evcc
 watchdog) and one worker share a bounded FIFO. Every channel operation is one event, so a run of
 the step system is one interleaving. Requests are numbered; a number stands for one call.
 */
module WriteQueue {

  type Id = nat

  const CAPACITY := 32
  const MAX_ATTEMPTS := 8
  const WRITE_RETRIES := 3

  /** The error values a caller can be given; Success is nil. */
  datatype Outcome = Success | Failed | Cancelled | Superseded | QueueFull

  /** What one dispatchWrite call returns, as isTransientWriteErr sorts it. */
  datatype Result = Ok | Final | Transient

  /**
   `queue` is the channel. The rest is history: the requests that entered, each one's place among
   them, how many have left, those the worker took, and who dropped each of the others
   (victim -> call).
   */
  datatype Line = Line(
    queue: seq<Id>,
    accepted: seq<Id>,
    place: map<Id, nat>,
    removed: nat,
    taken: seq<Id>,
    dropped: map<Id, Id>)
  {
    function Push(id: Id): Line {
      this.(queue := queue + [id], accepted := accepted + [id], place := place[id := |accepted|])
    }

    function DropHead(caller: Id): Line
      requires queue != []
    {
      this.(queue := queue[1..], removed := removed + 1, dropped := dropped[queue[0] := caller])
    }

    function TakeHead(): Line
      requires queue != []
    {
      this.(queue := queue[1..], removed := removed + 1, taken := taken + [queue[0]])
    }

    /** Requests leave in the order they entered, each to the worker or to a call that drops it. */
    ghost predicate Valid() {
      Placed() && Removed() && InTurn()
    }

    /** The queue is what of the accepted requests has not been removed. */
    ghost predicate Placed() {
      && |queue| <= CAPACITY
      && removed <= |accepted|
      && queue == accepted[removed..]
      && (forall i :: 0 <= i < |accepted| ==> accepted[i] in place && place[accepted[i]] == i)
      && (forall id :: id in place ==> place[id] < |accepted| && accepted[place[id]] == id)
    }

    /** Exactly the removed ones were taken or dropped, none both. */
    ghost predicate Removed()
      requires Placed()
    {
      && (forall v :: v in dropped ==> v in place && place[v] < removed)
      && (forall id :: id in taken ==> id in place && place[id] < removed && id !in dropped)
      && (forall i :: 0 <= i < removed ==> accepted[i] in dropped || accepted[i] in taken)
    }

    ghost predicate InTurn() {
      forall i, j :: 0 <= i < j < |taken| ==>
        taken[i] in place && taken[j] in place && place[taken[i]] < place[taken[j]]
    }
  }

  /** What an empty line and each operation on it keep. */
  lemma HeadLeaves(l: Line)
    requires l.Valid() && l.queue != []
    ensures l.queue[0] in l.place && l.place[l.queue[0]] == l.removed
    ensures l.queue[0] !in l.taken && l.queue[0] !in l.dropped
  {
    assert l.accepted[l.removed] == l.queue[0];
  }

  lemma TakenOrDropped(l: Line)
    requires l.Valid()
    ensures forall id :: id in l.taken ==> id !in l.dropped
    ensures forall id :: id in l.taken || id in l.dropped ==> id in l.place
  {
  }

  lemma PushKeepsValid(l: Line, id: Id)
    requires l.Valid() && id !in l.place && |l.queue| < CAPACITY
    ensures l.Push(id).Valid()
  {
    var t := l.Push(id);
    assert t.accepted[t.removed..] == l.accepted[l.removed..] + [id];
    forall i | 0 <= i < |t.accepted| ensures t.accepted[i] in t.place && t.place[t.accepted[i]] == i {
      assert i < |l.accepted| ==> t.accepted[i] == l.accepted[i];
    }
  }

  lemma DropHeadKeepsValid(l: Line, caller: Id)
    requires l.Valid() && l.queue != []
    ensures l.DropHead(caller).Valid()
  {
    HeadLeaves(l);
  }

  lemma TakeHeadKeepsRemoved(l: Line)
    requires l.Valid() && l.queue != []
    ensures l.TakeHead().Placed() && l.TakeHead().Removed()
  {
    HeadLeaves(l);
    var t, head := l.TakeHead(), l.queue[0];
    hide Line.InTurn;
    assert forall id :: id in t.taken <==> id in l.taken || id == head;
    forall i | 0 <= i < t.removed ensures t.accepted[i] in t.dropped || t.accepted[i] in t.taken {
      assert i == l.removed ==> t.accepted[i] == head;
    }
  }

  lemma TakeHeadKeepsValid(l: Line)
    requires l.Valid() && l.queue != []
    ensures l.TakeHead().Valid()
  {
    HeadLeaves(l);
    TakeHeadKeepsRemoved(l);
    forall i | 0 <= i < |l.taken| ensures l.place[l.taken[i]] < l.removed {
      assert l.taken[i] in l.taken;
    }
    hide Line.Placed, Line.Removed;
  }

  // ---------------------------------------------------------------------------------------------
  // The step system
  // ---------------------------------------------------------------------------------------------

  /** Where one call of enqueueWrite or Write stands; `round` counts the loop's rounds from 0. */
  datatype Phase =
    | Sending(round: nat)              // about to try the non-blocking send
    | Dropping(round: nat)             // the queue was full; about to try the non-blocking receive
    | Telling(round: nat, victim: Id)  // received the head; about to reply ErrWriteSuperseded to it
    | Accepted
    | Refused(until: nat)              // gave up when `until` commands had been accepted in all
    | Inline                           // Write saw no worker and dispatches by itself
    | InlineDone
  {
    predicate Pending() { Sending? || Dropping? || Telling? }
  }

  /**
   One call: whether it carries a reply channel, how many commands had been accepted when it began,
   and how many it has dropped.
   */
  datatype Call = Call(phase: Phase, web: bool, start: nat, drops: nat)

  datatype Worker =
    | Down
    | Idle
    | Busy(id: Id, attempt: nat)       // about to call dispatchWrite
    | Backoff(id: Id, attempt: nat)    // waiting writeRetryDelay before the next attempt
    | Answering(id: Id, outcome: Outcome)
  {
    predicate Holds(request: Id) {
      (Busy? || Backoff? || Answering?) && id == request
    }
  }

  datatype Answer = Answer(id: Id, outcome: Outcome)
  datatype Dispatch = Dispatch(id: Id, result: Result)

  /**
   `channel` holds the reply channels that hold a value (each has room for one), `returned` what
   each finished call returned. `told` and `dispatches` are history: every replyTo and every
   dispatchWrite call.
   */
  datatype State = State(
    calls: map<Id, Call>,
    line: Line,
    worker: Worker,
    channel: map<Id, Outcome>,
    returned: map<Id, Outcome>,
    told: seq<Answer>,
    dispatches: seq<Dispatch>)

  const INITIAL := State(map[], Line([], [], map[], 0, [], map[]), Down, map[], map[], [], [])

  datatype Event =
    | Begin(id: Id, web: bool)
    | TrySend(id: Id)
    | TryReceive(id: Id)
    | Tell(id: Id)
    | WorkerUp
    | WorkerExit
    | Take
    | Attempt(result: Result)
    | Retry
    | GiveUp
    | Reply
    | BeginInline(id: Id)
    | DispatchInline(id: Id, result: Result)
    | Collect(id: Id)
    | Abandon(id: Id)

  /** Write is in its select: accepted, with a reply channel, not returned. */
  predicate Waiting(s: State, id: Id) {
    id in s.calls && s.calls[id].phase.Accepted? && s.calls[id].web && id !in s.returned
  }

  predicate Enabled(s: State, e: Event) {
    match e
    case Begin(id, web) => id !in s.calls && (web ==> !s.worker.Down?)
    case TrySend(id) => id in s.calls && s.calls[id].phase.Sending?
    case TryReceive(id) => id in s.calls && s.calls[id].phase.Dropping?
    case Tell(id) => id in s.calls && s.calls[id].phase.Telling?
    case WorkerUp => s.worker.Down?
    case WorkerExit => s.worker.Idle?
    case Take => s.worker.Idle? && s.line.queue != []
    case Attempt(_) => s.worker.Busy?
    case Retry => s.worker.Backoff?
    case GiveUp => s.worker.Backoff?
    case Reply => s.worker.Answering?
    case BeginInline(id) => id !in s.calls && s.worker.Down?
    case DispatchInline(id, _) => id in s.calls && s.calls[id].phase.Inline?
    case Collect(id) => Waiting(s, id) && id in s.channel
    case Abandon(id) => Waiting(s, id)
  }

  function Move(s: State, id: Id, phase: Phase): State
    requires id in s.calls
  {
    s.(calls := s.calls[id := s.calls[id].(phase := phase)])
  }

  function Return(s: State, id: Id, outcome: Outcome): State {
    s.(returned := s.returned[id := outcome])
  }

  /** replyTo: a nil channel swallows the value, a full one keeps the value it has. */
  function ReplyTo(s: State, id: Id, outcome: Outcome): State {
    s.(told := s.told + [Answer(id, outcome)],
       channel := if id in s.calls && s.calls[id].web && id !in s.channel then s.channel[id := outcome] else s.channel)
  }

  /** The call after its round: the next round, or ErrWriteQueueFull when the rounds are used up. */
  function EndRound(s: State, id: Id, round: nat): State
    requires id in s.calls
  {
    if round + 1 < MAX_ATTEMPTS then
      Move(s, id, Sending(round + 1))
    else
      Return(Move(s, id, Refused(|s.line.accepted|)), id, QueueFull)
  }

  function FireSend(s: State, id: Id): State
    requires Enabled(s, TrySend(id))
  {
    if |s.line.queue| < CAPACITY then
      Move(s, id, Accepted).(line := s.line.Push(id))
    else
      Move(s, id, Dropping(s.calls[id].phase.round))
  }

  function FireReceive(s: State, id: Id): State
    requires Enabled(s, TryReceive(id))
  {
    var call := s.calls[id];
    if s.line.queue == [] then
      EndRound(s, id, call.phase.round)
    else
      var dropping := call.(phase := Telling(call.phase.round, s.line.queue[0]), drops := call.drops + 1);
      s.(calls := s.calls[id := dropping], line := s.line.DropHead(id))
  }

  function FireAttempt(s: State, result: Result): State
    requires Enabled(s, Attempt(result))
  {
    var id, n := s.worker.id, s.worker.attempt;
    s.(dispatches := s.dispatches + [Dispatch(id, result)],
       worker :=
         if result.Ok? then Answering(id, Success)
         else if result.Final? || n == WRITE_RETRIES then Answering(id, Failed)
         else Backoff(id, n))
  }

  function Fire(s: State, e: Event): State
    requires Enabled(s, e)
  {
    match e
    case Begin(id, web) => s.(calls := s.calls[id := Call(Sending(0), web, |s.line.accepted|, 0)])
    case TrySend(id) => FireSend(s, id)
    case TryReceive(id) => FireReceive(s, id)
    case Tell(id) => EndRound(ReplyTo(s, s.calls[id].phase.victim, Superseded), id, s.calls[id].phase.round)
    case WorkerUp => s.(worker := Idle)
    case WorkerExit => s.(worker := Down)
    case Take => s.(worker := Busy(s.line.queue[0], 1), line := s.line.TakeHead())
    case Attempt(result) => FireAttempt(s, result)
    case Retry => s.(worker := Busy(s.worker.id, s.worker.attempt + 1))
    case GiveUp => s.(worker := Answering(s.worker.id, Cancelled))
    case Reply => ReplyTo(s, s.worker.id, s.worker.outcome).(worker := Idle)
    case BeginInline(id) => s.(calls := s.calls[id := Call(Inline, false, |s.line.accepted|, 0)])
    case DispatchInline(id, result) =>
      Return(Move(s, id, InlineDone), id, if result.Ok? then Success else Failed)
        .(dispatches := s.dispatches + [Dispatch(id, result)])
    case Collect(id) => Return(s, id, s.channel[id]).(channel := s.channel - {id})
    case Abandon(id) => Return(s, id, Cancelled)
  }

  predicate Legal(s: State, es: seq<Event>)
    decreases |es|
  {
    es == [] || (Enabled(s, es[0]) && Legal(Fire(s, es[0]), es[1..]))
  }

  function Run(s: State, es: seq<Event>): State
    requires Legal(s, es)
    decreases |es|
  {
    if es == [] then s else Run(Fire(s, es[0]), es[1..])
  }

  // ---------------------------------------------------------------------------------------------
  // First in, first out
  // ---------------------------------------------------------------------------------------------

  ghost predicate Fifo(s: State) {
    && s.line.Valid()
    && (forall id :: id in s.line.place <==> id in s.calls && s.calls[id].phase.Accepted?)
  }

  lemma FifoSend(s: State, id: Id)
    requires Fifo(s) && Enabled(s, TrySend(id))
    ensures Fifo(FireSend(s, id))
  {
    hide Line.Valid;
    if |s.line.queue| < CAPACITY {
      PushKeepsValid(s.line, id);
    }
  }

  lemma FifoReceive(s: State, id: Id)
    requires Fifo(s) && Enabled(s, TryReceive(id))
    ensures Fifo(FireReceive(s, id))
  {
    hide Line.Valid;
    if s.line.queue != [] {
      DropHeadKeepsValid(s.line, id);
    }
  }

  lemma FifoStep(s: State, e: Event)
    requires Fifo(s) && Enabled(s, e)
    ensures Fifo(Fire(s, e))
  {
    hide Line.Valid, FireSend, FireReceive, FireAttempt;
    match e
    case TrySend(id) => FifoSend(s, id);
    case TryReceive(id) => FifoReceive(s, id);
    case Take => TakeHeadKeepsValid(s.line);
    case Attempt(result) => assert FireAttempt(s, result).calls == s.calls && FireAttempt(s, result).line == s.line by {
      AttemptTouchesWorker(s, result);
    }
    case _ =>
  }

  lemma AttemptTouchesWorker(s: State, result: Result)
    requires Enabled(s, Attempt(result))
    ensures
      var t := FireAttempt(s, result);
      && t.calls == s.calls && t.line == s.line
      && t.told == s.told && t.channel == s.channel && t.returned == s.returned
  {
  }

  // ---------------------------------------------------------------------------------------------
  // Answers: who is told what, once
  // ---------------------------------------------------------------------------------------------

  predicate Told(told: seq<Answer>, id: Id) {
    exists a :: a in told && a.id == id
  }

  lemma ToldAlso(told: seq<Answer>, a: Answer)
    ensures forall id :: Told(told + [a], id) <==> Told(told, id) || id == a.id
    ensures OnceEach(told) && !Told(told, a.id) ==> OnceEach(told + [a])
  {
    forall id | Told(told, id) ensures Told(told + [a], id) {
      var b :| b in told && b.id == id;
      assert b in told + [a];
    }
    assert a in told + [a];
  }

  ghost predicate OnceEach(told: seq<Answer>) {
    forall i, j :: 0 <= i < j < |told| ==> told[i].id != told[j].id
  }

  /** Call `c` has received `v` and not yet told it. */
  predicate TellingTo(s: State, c: Id, v: Id) {
    c in s.calls && s.calls[c].phase.Telling? && s.calls[c].phase.victim == v
  }

  ghost predicate Answered(s: State) {
    && OnceEach(s.told)
    && (forall a :: a in s.told ==>
          if a.outcome == Superseded then a.id in s.line.dropped
          else a.outcome != QueueFull && a.id in s.line.taken && !s.worker.Holds(a.id))
    && (forall c, v :: TellingTo(s, c, v) ==> v in s.line.dropped && s.line.dropped[v] == c && !Told(s.told, v))
    && (forall v :: v in s.line.dropped ==> Told(s.told, v) || TellingTo(s, s.line.dropped[v], v))
    && (forall id :: id in s.line.taken ==> s.worker.Holds(id) || Told(s.told, id))
    && (forall id :: s.worker.Holds(id) ==> id in s.line.taken && !Told(s.told, id))
    && (s.worker.Answering? ==> s.worker.outcome in {Success, Failed, Cancelled})
  }

  lemma AnsweredReceive(s: State, id: Id)
    requires Fifo(s) && Answered(s) && Enabled(s, TryReceive(id)) && s.line.queue != []
    ensures Answered(FireReceive(s, id))
  {
    hide Line.Valid;
    var t, v := FireReceive(s, id), s.line.queue[0];
    HeadLeaves(s.line);
    assert !Told(s.told, v);
    hide Told;
    assert forall c, x :: TellingTo(t, c, x) <==> TellingTo(s, c, x) || (c == id && x == v);
  }

  lemma AnsweredTell(s: State, id: Id)
    requires Fifo(s) && Answered(s) && Enabled(s, Tell(id))
    ensures Answered(Fire(s, Tell(id)))
  {
    hide Line.Valid;
    var t, v := Fire(s, Tell(id)), s.calls[id].phase.victim;
    assert TellingTo(s, id, v);
    ToldAlso(s.told, Answer(v, Superseded));
    assert t.told == s.told + [Answer(v, Superseded)];
    TakenOrDropped(s.line);
    hide Told;
    hide OnceEach;
    assert forall c, x :: TellingTo(t, c, x) <==> TellingTo(s, c, x) && c != id;
  }

  lemma AnsweredTake(s: State)
    requires Fifo(s) && Answered(s) && Enabled(s, Take)
    ensures Answered(Fire(s, Take))
  {
    hide Line.Valid;
    HeadLeaves(s.line);
    assert !Told(s.told, s.line.queue[0]);
    hide Told;
    assert forall c, x :: TellingTo(Fire(s, Take), c, x) <==> TellingTo(s, c, x);
  }

  lemma AnsweredReply(s: State)
    requires Fifo(s) && Answered(s) && Enabled(s, Reply)
    ensures Answered(Fire(s, Reply))
  {
    hide Line.Valid;
    var t := Fire(s, Reply);
    assert s.worker.Holds(s.worker.id);
    ToldAlso(s.told, Answer(s.worker.id, s.worker.outcome));
    assert t.told == s.told + [Answer(s.worker.id, s.worker.outcome)];
    TakenOrDropped(s.line);
    hide Told;
    hide OnceEach;
    assert forall c, x :: TellingTo(t, c, x) <==> TellingTo(s, c, x);
  }

  lemma AnsweredStep(s: State, e: Event)
    requires Fifo(s) && Answered(s) && Enabled(s, e)
    ensures Answered(Fire(s, e))
  {
    hide Line.Valid;
    match e
    case TryReceive(id) =>
      if s.line.queue != [] { AnsweredReceive(s, id); } else { AnsweredOther(s, e); }
    case Tell(id) => AnsweredTell(s, id);
    case Take => AnsweredTake(s);
    case Reply => AnsweredReply(s);
    case _ => AnsweredOther(s, e);
  }

  lemma AnsweredOther(s: State, e: Event)
    requires Answered(s) && Enabled(s, e) && !e.Tell? && !e.Take? && !e.Reply? && !(e.TryReceive? && s.line.queue != [])
    ensures Answered(Fire(s, e))
  {
    hide Told;
    var t := Fire(s, e);
    assert t.told == s.told && t.line.dropped == s.line.dropped && t.line.taken == s.line.taken;
    assert forall c, v :: TellingTo(t, c, v) <==> TellingTo(s, c, v);
    assert forall id :: t.worker.Holds(id) <==> s.worker.Holds(id);
  }

  // ---------------------------------------------------------------------------------------------
  // Dispatches
  // ---------------------------------------------------------------------------------------------

  predicate Worked(ds: seq<Dispatch>, id: Id) {
    Dispatch(id, Ok) in ds
  }

  function Tries(ds: seq<Dispatch>, id: Id): nat {
    if ds == [] then 0
    else Tries(ds[..|ds| - 1], id) + (if ds[|ds| - 1].id == id then 1 else 0)
  }

  lemma OneMoreTry(ds: seq<Dispatch>, d: Dispatch)
    ensures forall id :: Tries(ds + [d], id) == Tries(ds, id) + (if d.id == id then 1 else 0)
    ensures forall id :: Worked(ds + [d], id) <==> Worked(ds, id) || d == Dispatch(id, Ok)
  {
    assert (ds + [d])[..|ds|] == ds;
  }

  lemma {:induction false} NoTries(ds: seq<Dispatch>, id: Id)
    requires forall d :: d in ds ==> d.id != id
    ensures Tries(ds, id) == 0 && !Worked(ds, id)
  {
    if ds != [] {
      NoTries(ds[..|ds| - 1], id);
      assert ds[|ds| - 1] in ds;
    }
  }

  predicate InlineIsDone(s: State, id: Id) {
    id in s.calls && s.calls[id].phase.InlineDone?
  }

  ghost predicate WorkerCounts(w: Worker, ds: seq<Dispatch>) {
    match w
    case Busy(id, n) => 1 <= n <= WRITE_RETRIES && Tries(ds, id) == n - 1 && !Worked(ds, id)
    case Backoff(id, n) => 1 <= n < WRITE_RETRIES && Tries(ds, id) == n && !Worked(ds, id)
    case Answering(id, o) => o == Success <==> Worked(ds, id)
    case _ => true
  }

  /** A command is dispatched by the worker or inline, three times at most; Success says it worked. */
  ghost predicate Dispatched(s: State) {
    && (forall d :: d in s.dispatches ==> d.id in s.line.taken || InlineIsDone(s, d.id))
    && WorkerCounts(s.worker, s.dispatches)
    && (forall a :: a in s.told ==> (a.outcome == Success <==> Worked(s.dispatches, a.id)))
    && (forall id :: Tries(s.dispatches, id) <= WRITE_RETRIES)
  }

  lemma DispatchedTake(s: State)
    requires Fifo(s) && Dispatched(s) && Enabled(s, Take)
    ensures Dispatched(Fire(s, Take))
  {
    HeadLeaves(s.line);
    hide Line.Valid;
    NoTries(s.dispatches, s.line.queue[0]);
    assert forall id :: InlineIsDone(Fire(s, Take), id) <==> InlineIsDone(s, id);
  }

  lemma CountsAttempt(w: Worker, ds: seq<Dispatch>, r: Result)
    requires w.Busy? && WorkerCounts(w, ds)
    ensures Tries(ds, w.id) < WRITE_RETRIES
    ensures
      var after := if r.Ok? then Answering(w.id, Success)
        else if r.Final? || w.attempt == WRITE_RETRIES then Answering(w.id, Failed) else Backoff(w.id, w.attempt);
      WorkerCounts(after, ds + [Dispatch(w.id, r)])
  {
    OneMoreTry(ds, Dispatch(w.id, r));
    hide Tries, Worked;
  }

  lemma DispatchedAttempt(s: State, r: Result)
    requires Answered(s) && Dispatched(s) && Enabled(s, Attempt(r))
    ensures Dispatched(FireAttempt(s, r))
  {
    var d := Dispatch(s.worker.id, r);
    assert s.worker.Holds(d.id) && !Told(s.told, d.id);
    assert forall a :: a in s.told ==> a.id != d.id;
    assert d.id in s.line.taken;
    CountsAttempt(s.worker, s.dispatches, r);
    hide Worked, Tries, Answered, Told, WorkerCounts;
    OneMoreTry(s.dispatches, d);
    assert forall id :: InlineIsDone(FireAttempt(s, r), id) <==> InlineIsDone(s, id);
  }

  /** Nothing was dispatched for, told to or held of a call that Write is about to dispatch itself. */
  lemma InlineUntouched(s: State, id: Id)
    requires Fifo(s) && Answered(s) && Dispatched(s) && id in s.calls && s.calls[id].phase.Inline?
    ensures !s.worker.Holds(id)
    ensures forall a :: a in s.told ==> a.id != id
    ensures forall d :: d in s.dispatches ==> d.id != id
  {
    TakenOrDropped(s.line);
    hide Line.Valid, Worked, Tries, Told;
    assert id !in s.line.place;
  }

  lemma DispatchedInline(s: State, id: Id, r: Result)
    requires Fifo(s) && Answered(s) && Dispatched(s) && Enabled(s, DispatchInline(id, r))
    ensures Dispatched(Fire(s, DispatchInline(id, r)))
  {
    InlineUntouched(s, id);
    hide Fifo, Answered, Worked, Tries, FireSend, FireReceive, FireAttempt;
    var t := Fire(s, DispatchInline(id, r));
    assert t.dispatches == s.dispatches + [Dispatch(id, r)];
    assert t.told == s.told && t.worker == s.worker && t.line == s.line;
    NoTries(s.dispatches, id);
    OneMoreTry(s.dispatches, Dispatch(id, r));
    assert forall x :: InlineIsDone(t, x) <==> InlineIsDone(s, x) || x == id;
    hide Fire, InlineIsDone;
  }

  lemma DispatchedTell(s: State, id: Id)
    requires Fifo(s) && Answered(s) && Dispatched(s) && Enabled(s, Tell(id))
    ensures Dispatched(Fire(s, Tell(id)))
  {
    var v := s.calls[id].phase.victim;
    DroppedUntouched(s, id);
    NoTries(s.dispatches, v);
    hide Fifo, Answered, Worked, Tries, WorkerCounts;
    var t := Fire(s, Tell(id));
    assert t.told == s.told + [Answer(v, Superseded)];
    assert t.worker == s.worker && t.dispatches == s.dispatches && t.line == s.line;
    assert forall x :: InlineIsDone(t, x) <==> InlineIsDone(s, x);
  }

  /** Nothing was dispatched for a command that a call has dropped. */
  lemma DroppedUntouched(s: State, id: Id)
    requires Fifo(s) && Answered(s) && Dispatched(s) && Enabled(s, Tell(id))
    ensures forall d :: d in s.dispatches ==> d.id != s.calls[id].phase.victim
  {
    assert TellingTo(s, id, s.calls[id].phase.victim);
    TakenOrDropped(s.line);
    hide Line.Valid, Worked, Tries, Told;
  }

  lemma DispatchedOther(s: State, e: Event)
    requires Dispatched(s) && Enabled(s, e) && !e.Take? && !e.Attempt? && !e.DispatchInline? && !e.Tell?
    ensures Dispatched(Fire(s, e))
  {
    hide Worked, Tries, FireAttempt;
    var t := Fire(s, e);
    assert t.dispatches == s.dispatches && t.line.taken == s.line.taken;
    assert forall x :: InlineIsDone(t, x) <==> InlineIsDone(s, x);
  }

  lemma DispatchedStep(s: State, e: Event)
    requires Fifo(s) && Answered(s) && Dispatched(s) && Enabled(s, e)
    ensures Dispatched(Fire(s, e))
  {
    hide Line.Valid;
    match e
    case Take => DispatchedTake(s);
    case Attempt(r) => DispatchedAttempt(s, r);
    case DispatchInline(id, r) => DispatchedInline(s, id, r);
    case Tell(id) => DispatchedTell(s, id);
    case _ => DispatchedOther(s, e);
  }

  // ---------------------------------------------------------------------------------------------
  // Reply channels and what a call returns
  // ---------------------------------------------------------------------------------------------

  ghost predicate ReturnedRight(s: State, id: Id)
    requires id in s.returned
  {
    id in s.calls &&
    match s.calls[id].phase
    case Refused(_) => s.returned[id] == QueueFull
    case InlineDone => s.returned[id] in {Success, Failed} && (s.returned[id] == Success <==> Worked(s.dispatches, id))
    case Accepted => s.returned[id] == Cancelled || Answer(id, s.returned[id]) in s.told
    case _ => false
  }

  ghost predicate Returned(s: State) {
    && (forall id :: id in s.channel ==> Answer(id, s.channel[id]) in s.told)
    && (forall id :: id in s.returned ==> ReturnedRight(s, id))
  }

  lemma ReturnedAttempt(s: State, r: Result)
    requires Fifo(s) && Answered(s) && Returned(s) && Enabled(s, Attempt(r))
    ensures Returned(FireAttempt(s, r))
  {
    hide Line.Valid;
    TakenOrDropped(s.line);
    var t, d := FireAttempt(s, r), Dispatch(s.worker.id, r);
    assert s.worker.Holds(d.id);
    assert s.calls[d.id].phase.Accepted?;
    OneMoreTry(s.dispatches, d);
    hide Worked;
    forall id | id in t.returned ensures ReturnedRight(t, id) {
      assert ReturnedRight(s, id);
    }
  }

  lemma ReturnedInline(s: State, id: Id, r: Result)
    requires Fifo(s) && Answered(s) && Dispatched(s) && Returned(s) && Enabled(s, DispatchInline(id, r))
    ensures Returned(Fire(s, DispatchInline(id, r)))
  {
    InlineUntouched(s, id);
    hide Fifo, Answered, Dispatched, Worked, Tries, FireSend, FireReceive, FireAttempt;
    var t := Fire(s, DispatchInline(id, r));
    assert t.dispatches == s.dispatches + [Dispatch(id, r)] && t.told == s.told && t.channel == s.channel;
    NoTries(s.dispatches, id);
    OneMoreTry(s.dispatches, Dispatch(id, r));
    forall x | x in t.returned ensures ReturnedRight(t, x) {
      if x != id {
        assert x in s.returned && ReturnedRight(s, x);
        assert t.calls[x] == s.calls[x] && t.returned[x] == s.returned[x];
      }
    }
  }

  lemma ReturnedStays(s: State, e: Event, id: Id)
    requires Enabled(s, e) && !e.Attempt? && !e.DispatchInline?
    requires id in s.returned && ReturnedRight(s, id)
    ensures var t := Fire(s, e); id in t.returned && ReturnedRight(t, id)
  {
    hide Worked, FireAttempt;
    assert forall a :: a in s.told ==> a in Fire(s, e).told;
  }

  lemma ReturnedNow(s: State, e: Event, id: Id)
    requires Enabled(s, e) && !e.Attempt? && !e.DispatchInline?
    requires forall x :: x in s.channel ==> Answer(x, s.channel[x]) in s.told
    requires id !in s.returned && id in Fire(s, e).returned
    ensures ReturnedRight(Fire(s, e), id)
  {
    hide Worked, FireAttempt;
  }

  lemma ChannelKept(s: State, e: Event, id: Id)
    requires Enabled(s, e)
    requires forall x :: x in s.channel ==> Answer(x, s.channel[x]) in s.told
    requires id in Fire(s, e).channel
    ensures Answer(id, Fire(s, e).channel[id]) in Fire(s, e).told
  {
  }

  lemma ReturnedOther(s: State, e: Event)
    requires Returned(s) && Enabled(s, e) && !e.Attempt? && !e.DispatchInline?
    ensures Returned(Fire(s, e))
  {
    hide Fire, ReturnedRight;
    var t := Fire(s, e);
    forall id | id in t.channel ensures Answer(id, t.channel[id]) in t.told {
      ChannelKept(s, e, id);
    }
    forall id | id in t.returned ensures ReturnedRight(t, id) {
      if id in s.returned {
        ReturnedStays(s, e, id);
      } else {
        ReturnedNow(s, e, id);
      }
    }
  }

  lemma ReturnedStep(s: State, e: Event)
    requires Fifo(s) && Answered(s) && Dispatched(s) && Returned(s) && Enabled(s, e)
    ensures Returned(Fire(s, e))
  {
    hide Line.Valid;
    match e
    case Attempt(r) => ReturnedAttempt(s, r);
    case DispatchInline(id, r) => ReturnedInline(s, id, r);
    case _ => ReturnedOther(s, e);
  }

  // ---------------------------------------------------------------------------------------------
  // Rounds
  // ---------------------------------------------------------------------------------------------

  /**
   From its second failed send on, each round of a call means that another command took the place
   the previous round had made.
   */
  ghost predicate RoundsRight(l: Line, id: Id, c: Call) {
    var full := if |l.queue| == CAPACITY then 1 else 0;
    match c.phase
    case Sending(k) =>
      k < MAX_ATTEMPTS && c.drops <= k && c.start <= |l.accepted| && (k > 0 ==> c.start + k - 1 + full <= |l.accepted|)
    case Dropping(k) => k < MAX_ATTEMPTS && c.drops <= k && c.start + k <= |l.accepted|
    case Telling(k, _) => k < MAX_ATTEMPTS && c.drops <= k + 1 && c.start + k + full <= |l.accepted|
    case Accepted => id in l.place && c.start <= l.place[id] && c.drops <= l.place[id] - c.start + 1
    case Refused(until) => c.start + MAX_ATTEMPTS - 1 <= until <= |l.accepted|
    case _ => c.drops == 0
  }

  ghost predicate Rounds(s: State) {
    forall id :: id in s.calls ==> RoundsRight(s.line, id, s.calls[id])
  }

  /** What a step may do to a call it does not belong to. */
  lemma RoundsFrame(s: State, t: State, id: Id)
    requires id in s.calls && id in t.calls && t.calls[id] == s.calls[id] && RoundsRight(s.line, id, s.calls[id])
    requires id in s.line.place ==> id in t.line.place && t.line.place[id] == s.line.place[id]
    requires |s.line.queue| <= CAPACITY && |t.line.queue| <= CAPACITY
    requires |t.line.accepted| >= |s.line.accepted| + (if |t.line.queue| > |s.line.queue| then 1 else 0)
    ensures RoundsRight(t.line, id, t.calls[id])
  {
  }

  lemma RoundsSend(s: State, id: Id)
    requires |s.line.queue| <= CAPACITY && Rounds(s) && Enabled(s, TrySend(id)) && id !in s.line.place
    ensures Rounds(FireSend(s, id))
  {
    var t := FireSend(s, id);
    assert RoundsRight(s.line, id, s.calls[id]);
    assert RoundsRight(t.line, id, t.calls[id]);
    forall x | x in t.calls && x != id ensures RoundsRight(t.line, x, t.calls[x]) {
      RoundsFrame(s, t, x);
    }
  }

  lemma RoundsReceive(s: State, id: Id)
    requires |s.line.queue| <= CAPACITY && Rounds(s) && Enabled(s, TryReceive(id))
    ensures Rounds(FireReceive(s, id))
  {
    var t := FireReceive(s, id);
    assert RoundsRight(s.line, id, s.calls[id]);
    assert RoundsRight(t.line, id, t.calls[id]);
    forall x | x in t.calls && x != id ensures RoundsRight(t.line, x, t.calls[x]) {
      RoundsFrame(s, t, x);
    }
  }

  lemma RoundsOther(s: State, e: Event)
    requires |s.line.queue| <= CAPACITY && Rounds(s) && Enabled(s, e) && !e.TrySend? && !e.TryReceive?
    ensures Rounds(Fire(s, e))
  {
    var t := Fire(s, e);
    forall x | x in t.calls ensures RoundsRight(t.line, x, t.calls[x]) {
      assert x in s.calls ==> RoundsRight(s.line, x, s.calls[x]);
    }
  }

  lemma RoundsStep(s: State, e: Event)
    requires Fifo(s) && Rounds(s) && Enabled(s, e)
    ensures Rounds(Fire(s, e))
  {
    assert |s.line.queue| <= CAPACITY;
    hide Line.Valid;
    hide Rounds;
    match e
    case TrySend(id) => RoundsSend(s, id);
    case TryReceive(id) => RoundsReceive(s, id);
    case _ => RoundsOther(s, e);
  }

  // ---------------------------------------------------------------------------------------------
  // The order of dispatches
  // ---------------------------------------------------------------------------------------------

  /** The worker holds what it took last, and has dispatched in the order of acceptance. */
  ghost predicate InOrder(s: State) {
    && (forall id :: s.worker.Holds(id) ==> s.line.taken != [] && s.line.taken[|s.line.taken| - 1] == id)
    && OrderedBy(s.dispatches, s.line.place)
  }

  ghost predicate OrderedBy(ds: seq<Dispatch>, place: map<Id, nat>) {
    forall i, j :: 0 <= i < j < |ds| && ds[i].id in place && ds[j].id in place ==> place[ds[i].id] <= place[ds[j].id]
  }

  lemma OneMoreInOrder(ds: seq<Dispatch>, d: Dispatch, place: map<Id, nat>)
    requires OrderedBy(ds, place)
    requires d.id in place ==> forall e :: e in ds && e.id in place ==> place[e.id] <= place[d.id]
    ensures OrderedBy(ds + [d], place)
  {
    forall i | 0 <= i < |ds| ensures ds[i] in ds {
    }
  }

  /** What the worker took last has the highest place of all it took. */
  lemma LastTakenIsHighest(l: Line, id: Id)
    requires l.Valid() && id in l.taken
    ensures id in l.place && l.taken[|l.taken| - 1] in l.place && l.place[id] <= l.place[l.taken[|l.taken| - 1]]
  {
    var k :| 0 <= k < |l.taken| && l.taken[k] == id;
    assert l.taken[|l.taken| - 1] in l.taken;
  }

  /** Nothing was dispatched for a call that is still trying to send. */
  lemma SendingUntouched(s: State, id: Id)
    requires Fifo(s) && Dispatched(s) && id in s.calls && s.calls[id].phase.Sending?
    ensures forall i :: 0 <= i < |s.dispatches| ==> s.dispatches[i].id != id
  {
    TakenOrDropped(s.line);
    hide Line.Valid, Tries, Worked;
    forall i | 0 <= i < |s.dispatches| ensures s.dispatches[i].id != id {
      assert s.dispatches[i] in s.dispatches;
    }
  }

  lemma OrderPush(s: State, id: Id)
    requires Fifo(s) && Dispatched(s) && InOrder(s) && Enabled(s, TrySend(id))
    ensures InOrder(FireSend(s, id))
  {
    SendingUntouched(s, id);
    hide Fifo, Dispatched;
    assert OrderedBy(s.dispatches, s.line.place[id := |s.line.accepted|]);
    hide OrderedBy;
  }

  lemma OrderAttempt(s: State, r: Result)
    requires Fifo(s) && Dispatched(s) && InOrder(s) && Enabled(s, Attempt(r))
    ensures InOrder(FireAttempt(s, r))
  {
    var d := Dispatch(s.worker.id, r);
    assert s.worker.Holds(d.id);
    forall e | e in s.dispatches && e.id in s.line.place ensures s.line.place[e.id] <= s.line.place[d.id] {
      assert !InlineIsDone(s, e.id);
      LastTakenIsHighest(s.line, e.id);
    }
    hide Line.Valid, Tries, Worked;
    OneMoreInOrder(s.dispatches, d, s.line.place);
  }

  lemma OrderStep(s: State, e: Event)
    requires Fifo(s) && Dispatched(s) && InOrder(s) && Enabled(s, e)
    ensures InOrder(Fire(s, e))
  {
    hide Line.Valid, Tries, Worked, FireSend, FireAttempt;
    match e
    case TrySend(id) => OrderPush(s, id);
    case Take =>
      assert Fire(s, Take).line.taken == s.line.taken + [s.line.queue[0]];
    case Attempt(r) => OrderAttempt(s, r);
    case DispatchInline(id, r) =>
      assert id !in s.line.place;
      OneMoreInOrder(s.dispatches, Dispatch(id, r), s.line.place);
    case _ => OrderOther(s, e);
  }

  lemma OrderOther(s: State, e: Event)
    requires InOrder(s) && Enabled(s, e)
    requires !e.TrySend? && !e.Take? && !e.Attempt? && !e.DispatchInline?
    ensures InOrder(Fire(s, e))
  {
    var t := Fire(s, e);
    hide FireSend, FireAttempt;
    assert t.line.taken == s.line.taken && t.line.place == s.line.place && t.dispatches == s.dispatches;
    assert forall id :: t.worker.Holds(id) ==> s.worker.Holds(id);
  }

  // ---------------------------------------------------------------------------------------------
  // Every run
  // ---------------------------------------------------------------------------------------------

  ghost predicate Inv(s: State) {
    Fifo(s) && Answered(s) && Dispatched(s) && Returned(s) && Rounds(s) && InOrder(s)
  }

  lemma InvStep(s: State, e: Event)
    requires Inv(s) && Enabled(s, e)
    ensures Inv(Fire(s, e))
  {
    FifoStep(s, e);
    AnsweredStep(s, e);
    DispatchedStep(s, e);
    ReturnedStep(s, e);
    RoundsStep(s, e);
    OrderStep(s, e);
    hide Fifo, Answered, Dispatched, Returned, Rounds, InOrder, Fire;
  }

  lemma {:induction false} EveryRunFrom(s: State, es: seq<Event>)
    requires Inv(s) && Legal(s, es)
    ensures Inv(Run(s, es))
    decreases |es|
  {
    hide Inv;
    if es != [] {
      InvStep(s, es[0]);
      EveryRunFrom(Fire(s, es[0]), es[1..]);
    }
  }

  ghost predicate Reachable(s: State) {
    exists es :: Legal(INITIAL, es) && Run(INITIAL, es) == s
  }

  lemma EveryRun(s: State)
    requires Reachable(s)
    ensures Inv(s)
  {
    var es :| Legal(INITIAL, es) && Run(INITIAL, es) == s;
    assert Tries([], 0) == 0;
    EveryRunFrom(INITIAL, es);
  }

  datatype Place = IsPending | IsQueued | IsInHand | IsAnswered | IsDropped | IsRefused | IsSelfServed

  /** Where request `id` is found. */
  ghost predicate Is(s: State, id: Id, p: Place) {
    match p
    case IsPending => id in s.calls && s.calls[id].phase.Pending()
    case IsQueued => id in s.line.queue
    case IsInHand => s.worker.Holds(id)
    case IsAnswered => id in s.line.taken && Told(s.told, id)
    case IsDropped => id in s.line.dropped
    case IsRefused => id in s.calls && s.calls[id].phase.Refused?
    case IsSelfServed => id in s.calls && (s.calls[id].phase.Inline? || s.calls[id].phase.InlineDone?)
  }

  /** An accepted request is queued exactly as long as nobody has removed it. */
  lemma QueuedOrRemoved(l: Line, id: Id)
    requires l.Valid() && id in l.place
    ensures id in l.queue <==> id !in l.dropped && id !in l.taken
  {
    var p := l.place[id];
    assert l.accepted[p] == id;
    if p >= l.removed {
      assert l.queue[p - l.removed] == id;
    }
    if id in l.queue {
      var k :| 0 <= k < |l.queue| && l.queue[k] == id;
      assert l.accepted[l.removed + k] == id;
    }
  }

  lemma PlaceFacts(s: State, id: Id)
    requires Fifo(s) && Answered(s) && id in s.calls
    ensures s.calls[id].phase.Accepted? <==> id in s.line.place
    ensures id in s.line.queue || id in s.line.dropped || id in s.line.taken ==> id in s.line.place
    ensures id in s.line.place ==> (id in s.line.queue <==> id !in s.line.dropped && id !in s.line.taken)
    ensures !(id in s.line.dropped && id in s.line.taken)
    ensures s.worker.Holds(id) <==> id in s.line.taken && !Told(s.told, id)
  {
    TakenOrDropped(s.line);
    if id in s.line.queue {
      var k :| 0 <= k < |s.line.queue| && s.line.queue[k] == id;
      assert s.line.accepted[s.line.removed + k] == id;
    }
    if id in s.line.place {
      QueuedOrRemoved(s.line, id);
    }
    hide Line.Valid, Told, OnceEach;
  }

  /** The place that the facts single out. */
  ghost function PlaceOf(s: State, id: Id): Place
    requires id in s.calls
  {
    if id in s.line.queue then IsQueued
    else if id in s.line.dropped then IsDropped
    else if s.worker.Holds(id) then IsInHand
    else if id in s.line.taken then IsAnswered
    else if s.calls[id].phase.Refused? then IsRefused
    else if s.calls[id].phase.Pending() then IsPending
    else IsSelfServed
  }

  lemma IsPlaceOf(s: State, id: Id, p: Place)
    requires Fifo(s) && Answered(s) && id in s.calls
    ensures Is(s, id, p) <==> p == PlaceOf(s, id)
  {
    PlaceFacts(s, id);
    hide Fifo, Answered, Told;
    match p
    case IsPending =>
    case IsQueued =>
    case IsInHand =>
    case IsAnswered =>
    case IsDropped =>
    case IsRefused =>
    case IsSelfServed =>
  }

  /** Conservation: every request is in exactly one place at every moment of every run. */
  lemma ExactlyOnePlace(s: State, id: Id)
    requires Reachable(s) && id in s.calls
    ensures exists p :: Is(s, id, p) && forall q :: Is(s, id, q) ==> q == p
  {
    EveryRun(s);
    hide Inv, Is, PlaceOf, Reachable;
    forall p ensures Is(s, id, p) <==> p == PlaceOf(s, id) {
      IsPlaceOf(s, id, p);
    }
    assert Is(s, id, PlaceOf(s, id));
  }

  /**
   Every request is answered at most once; the superseded error goes to dropped requests only, and
   Success only to a request of which a dispatch succeeded; a dropped or taken request without its
   answer is still in the hand of the call or the worker that owes it.
   */
  lemma OneAnswerEach(s: State)
    requires Reachable(s)
    ensures OnceEach(s.told)
    ensures forall a :: a in s.told ==>
      && (a.outcome == Superseded <==> a.id in s.line.dropped)
      && (a.outcome == Success <==> Worked(s.dispatches, a.id))
    ensures forall id :: id in s.line.dropped && !Told(s.told, id) ==> TellingTo(s, s.line.dropped[id], id)
    ensures forall id :: id in s.line.taken && !Told(s.told, id) ==> s.worker.Holds(id)
  {
    EveryRun(s);
    TakenOrDropped(s.line);
    hide Line.Valid;
  }

  /** replyTo never finds a full channel, so its default branch is never taken. */
  lemma ReplyFindsRoom(s: State, id: Id)
    requires Reachable(s)
    requires (exists c :: TellingTo(s, c, id)) || (s.worker.Answering? && s.worker.id == id)
    ensures id !in s.channel
  {
    EveryRun(s);
    if s.worker.Answering? && s.worker.id == id {
      assert s.worker.Holds(id);
    }
    assert !Told(s.told, id);
  }

  /**
   Write returns nil only if a dispatch of that very command succeeded, the superseded error only
   for a dropped command and the queue-full error only for a refused one, neither ever dispatched.
   */
  lemma WriteIsHonest(s: State, id: Id)
    requires Reachable(s) && id in s.returned
    ensures s.returned[id] == Success ==> Worked(s.dispatches, id)
    ensures s.returned[id] == Superseded ==> Is(s, id, IsDropped) && Tries(s.dispatches, id) == 0
    ensures s.returned[id] == QueueFull ==> Is(s, id, IsRefused) && Tries(s.dispatches, id) == 0
  {
    EveryRun(s);
    assert ReturnedRight(s, id);
    TakenOrDropped(s.line);
    hide Line.Valid;
    if s.returned[id] in {Superseded, QueueFull} {
      if s.calls[id].phase.Accepted? {
        assert Answer(id, s.returned[id]) in s.told;
      }
      NoTries(s.dispatches, id);
    }
  }

  /** A command reaches the inverter three times at most, and no more once a dispatch succeeded. */
  lemma ThreeTries(s: State, id: Id)
    requires Reachable(s)
    ensures Tries(s.dispatches, id) <= WRITE_RETRIES
    ensures s.worker.Busy? && s.worker.id == id ==>
      Tries(s.dispatches, id) == s.worker.attempt - 1 && !Worked(s.dispatches, id)
  {
    EveryRun(s);
  }

  /** `sub` is `s` with some elements left out: `at` gives the places of those kept. */
  ghost predicate SubsequenceAt(sub: seq<Id>, s: seq<Id>, at: seq<nat>) {
    && |at| == |sub|
    && (forall i :: 0 <= i < |at| ==> at[i] < |s| && s[at[i]] == sub[i])
    && (forall i, j :: 0 <= i < j < |at| ==> at[i] < at[j])
  }

  /**
   The worker takes commands in the order of acceptance, leaving out only what calls dropped, and the
   dispatches follow that order: of two dispatches of accepted commands the later one's command was
   accepted later, or is the same.
   */
  lemma DispatchOrder(s: State) returns (at: seq<nat>)
    requires Reachable(s)
    ensures forall d :: d in s.dispatches ==> d.id in s.line.taken || d.id !in s.line.place
    ensures OrderedBy(s.dispatches, s.line.place)
    ensures SubsequenceAt(s.line.taken, s.line.accepted, at)
    ensures s.line.removed <= |s.line.accepted|
    ensures forall i :: 0 <= i < s.line.removed ==> i in at || s.line.accepted[i] in s.line.dropped
  {
    EveryRun(s);
    at := TakenInOrder(s.line);
    hide Line.Valid, Answered, Returned, Rounds, Tries, Worked;
    assert forall d :: d in s.dispatches ==> d.id in s.line.taken || d.id !in s.line.place;
  }

  lemma TakenInOrder(l: Line) returns (at: seq<nat>)
    requires l.Valid()
    ensures SubsequenceAt(l.taken, l.accepted, at)
    ensures l.removed <= |l.accepted|
    ensures forall i :: 0 <= i < l.removed ==> i in at || l.accepted[i] in l.dropped
  {
    at := seq(|l.taken|, i requires 0 <= i < |l.taken| => l.place[l.taken[i]]);
    forall i | 0 <= i < l.removed ensures i in at || l.accepted[i] in l.dropped {
      if l.accepted[i] in l.taken {
        var k :| 0 <= k < |l.taken| && l.taken[k] == l.accepted[i];
        assert at[k] == i;
      }
    }
  }

  /** A refused call lost its place to at least seven different other commands meanwhile. */
  lemma RefusalNeedsSevenOthers(s: State, id: Id)
    requires Reachable(s) && Is(s, id, IsRefused)
    ensures
      var c := s.calls[id];
      && c.start + 7 <= c.phase.until <= |s.line.accepted|
      && (forall i :: c.start <= i < c.phase.until ==> s.line.accepted[i] != id)
      && (forall i, j :: c.start <= i < j < c.phase.until ==> s.line.accepted[i] != s.line.accepted[j])
  {
    EveryRun(s);
    assert RoundsRight(s.line, id, s.calls[id]);
  }

  /** An accepted call drops at most one command more than others were accepted meanwhile. */
  lemma DropsPaidByOthers(s: State, id: Id)
    requires Reachable(s) && id in s.line.place
    ensures id in s.calls && s.calls[id].drops + s.calls[id].start <= s.line.place[id] + 1
  {
    EveryRun(s);
    assert id in s.calls;
    assert RoundsRight(s.line, id, s.calls[id]);
  }

  // ---------------------------------------------------------------------------------------------
  // A sole producer
  // ---------------------------------------------------------------------------------------------

  ghost predicate NonePending(s: State) {
    forall id :: id in s.calls ==> !s.calls[id].phase.Pending()
  }

  /** A run in which a call begins only when no other is under way. */
  ghost predicate OneAtATime(s: State, es: seq<Event>)
    requires Legal(s, es)
    decreases |es|
  {
    es == [] || ((es[0].Begin? ==> NonePending(s)) && OneAtATime(Fire(s, es[0]), es[1..]))
  }

  ghost predicate SoleCall(l: Line, id: Id, c: Call) {
    && !c.phase.Refused?
    && (c.phase.Pending() ==> c.start == |l.accepted|)
    && (id in l.place ==> c.start == l.place[id])
  }

  ghost predicate Sole(s: State) {
    && (forall id :: id in s.calls ==> SoleCall(s.line, id, s.calls[id]))
    && (forall c, d ::
          c in s.calls && d in s.calls && s.calls[c].phase.Pending() && s.calls[d].phase.Pending() ==> c == d)
    && (NonePending(s) && s.line.accepted != [] ==> s.line.accepted[|s.line.accepted| - 1] !in s.line.dropped)
  }

  lemma SoleSend(s: State, id: Id)
    requires Sole(s) && Enabled(s, TrySend(id))
    requires id !in s.line.dropped
    ensures Sole(FireSend(s, id))
  {
    var t := FireSend(s, id);
    forall x | x in t.calls ensures SoleCall(t.line, x, t.calls[x]) {
      assert SoleCall(s.line, x, s.calls[x]);
      assert s.calls[x].phase.Pending() ==> x == id;
    }
    if |s.line.queue| >= CAPACITY {
      assert t.calls[id].phase.Pending();
    }
  }

  lemma SoleTurn(s: State, e: Event)
    requires Sole(s) && Enabled(s, e) && (e.TryReceive? || e.Tell?)
    requires RoundsRight(s.line, e.id, s.calls[e.id])
    ensures Sole(Fire(s, e))
  {
    var t := Fire(s, e);
    assert SoleCall(s.line, e.id, s.calls[e.id]);
    assert t.calls[e.id].phase.Pending() && t.line.accepted == s.line.accepted && t.line.place == s.line.place;
    forall x | x in t.calls ensures SoleCall(t.line, x, t.calls[x]) {
      assert SoleCall(s.line, x, s.calls[x]);
    }
  }

  lemma SoleBegin(s: State, id: Id, web: bool)
    requires Sole(s) && Enabled(s, Begin(id, web)) && NonePending(s)
    requires forall x :: x in s.line.place ==> x in s.calls
    ensures Sole(Fire(s, Begin(id, web)))
  {
    var t := Fire(s, Begin(id, web));
    forall x | x in t.calls ensures SoleCall(t.line, x, t.calls[x]) {
      assert x in s.calls ==> SoleCall(s.line, x, s.calls[x]);
    }
    assert t.calls[id].phase.Pending();
  }

  /** Such an event leaves the line's record and the calls of enqueueWrite alone. */
  lemma CallsKept(s: State, e: Event)
    requires Enabled(s, e) && !e.TrySend? && !e.TryReceive? && !e.Tell? && !e.Begin?
    ensures
      var t := Fire(s, e);
      && t.line.accepted == s.line.accepted && t.line.place == s.line.place && t.line.dropped == s.line.dropped
      && (forall x :: x in t.calls && x !in s.calls ==> t.calls[x].phase.Inline?)
      && (forall x :: x in s.calls ==>
            && x in t.calls && t.calls[x].start == s.calls[x].start
            && (t.calls[x].phase == s.calls[x].phase || (s.calls[x].phase.Inline? && t.calls[x].phase.InlineDone?)))
  {
    hide FireSend, FireReceive;
  }

  lemma SoleOther(s: State, e: Event)
    requires Sole(s) && Enabled(s, e) && !e.TrySend? && !e.TryReceive? && !e.Tell? && !e.Begin?
    requires forall id :: id in s.line.place ==> id in s.calls
    ensures Sole(Fire(s, e))
  {
    CallsKept(s, e);
    hide Fire;
    var t := Fire(s, e);
    forall x | x in t.calls ensures SoleCall(t.line, x, t.calls[x]) {
      if x in s.calls {
        assert SoleCall(s.line, x, s.calls[x]);
      }
    }
    hide SoleCall;
    forall x | x in t.calls ensures t.calls[x].phase.Pending() ==> x in s.calls && s.calls[x].phase.Pending() {
    }
    if NonePending(t) {
      forall x | x in s.calls ensures !s.calls[x].phase.Pending() {
        assert x in t.calls;
      }
    }
  }

  lemma SoleStep(s: State, e: Event)
    requires Fifo(s) && Rounds(s) && Sole(s) && Enabled(s, e) && (e.Begin? ==> NonePending(s))
    ensures Sole(Fire(s, e))
  {
    TakenOrDropped(s.line);
    hide Line.Valid, Sole;
    match e
    case TrySend(id) => SoleSend(s, id);
    case TryReceive(_) => SoleTurn(s, e);
    case Tell(_) => SoleTurn(s, e);
    case Begin(id, web) => SoleBegin(s, id, web);
    case _ => SoleOther(s, e);
  }

  lemma {:induction false} SoleFrom(s: State, es: seq<Event>)
    requires Inv(s) && Sole(s) && Legal(s, es) && OneAtATime(s, es)
    ensures Inv(Run(s, es)) && Sole(Run(s, es))
    decreases |es|
  {
    hide Fifo, Answered, Dispatched, Returned, Rounds, InOrder, Sole;
    if es != [] {
      InvStep(s, es[0]);
      SoleStep(s, es[0]);
      SoleFrom(Fire(s, es[0]), es[1..]);
    }
  }

  ghost predicate ReachableAlone(s: State) {
    exists es :: Legal(INITIAL, es) && OneAtATime(INITIAL, es) && Run(INITIAL, es) == s
  }

  lemma EverySoleRun(s: State)
    requires ReachableAlone(s)
    ensures Inv(s) && Sole(s)
  {
    assert Legal(INITIAL, []) && Run(INITIAL, []) == INITIAL;
    EveryRun(INITIAL);
    var es :| Legal(INITIAL, es) && OneAtATime(INITIAL, es) && Run(INITIAL, es) == s;
    SoleFrom(INITIAL, es);
  }

  /** A sole producer is never refused and drops at most one command a call. */
  lemma SoleProducerIsServed(s: State, id: Id)
    requires ReachableAlone(s) && id in s.calls
    ensures !Is(s, id, IsRefused) && s.calls[id].drops <= 1
  {
    EverySoleRun(s);
    assert RoundsRight(s.line, id, s.calls[id]) && SoleCall(s.line, id, s.calls[id]);
  }

  /** Between its calls, a sole producer's last command is queued or has gone to the worker. */
  lemma SoleProducersLastSurvives(s: State)
    requires ReachableAlone(s) && NonePending(s) && s.line.accepted != []
    ensures
      var last := s.line.accepted[|s.line.accepted| - 1];
      last in s.line.queue || last in s.line.taken
  {
    EverySoleRun(s);
    QueuedOrRemoved(s.line, s.line.accepted[|s.line.accepted| - 1]);
  }

  // ---------------------------------------------------------------------------------------------
  // The code itself, undisturbed
  // ---------------------------------------------------------------------------------------------

  datatype WriteReq = WriteReq(id: Id, reply: bool)

  /** The queue and the reply channels, as one call finds them while no other goroutine runs. */
  class CommandQueue {
    var writeQueue: seq<WriteReq>
    var replies: map<Id, Outcome>

    constructor ()
      ensures writeQueue == [] && replies == map[]
    {
      writeQueue := [];
      replies := map[];
    }

    method ReplyTo(req: WriteReq, outcome: Outcome)
      modifies this`replies
      ensures req.reply && req.id !in old(replies) ==> replies == old(replies)[req.id := outcome]
      ensures !req.reply || req.id in old(replies) ==> replies == old(replies)
    {
      if !req.reply {
        return;
      }
      if req.id !in replies {
        replies := replies[req.id := outcome];
      }
    }

    /** Makes room by dropping the oldest command; alone, it needs two rounds at most. */
    method EnqueueWrite(req: WriteReq) returns (outcome: Outcome)
      requires |writeQueue| <= CAPACITY
      modifies this
      ensures outcome == Success
      ensures |writeQueue| <= CAPACITY
      ensures old(|writeQueue|) < CAPACITY ==> writeQueue == old(writeQueue) + [req] && replies == old(replies)
      ensures old(|writeQueue|) == CAPACITY ==>
        var victim := old(writeQueue)[0];
        && writeQueue == old(writeQueue)[1..] + [req]
        && replies.Keys == old(replies).Keys + (if victim.reply then {victim.id} else {})
        && (forall id :: id in replies ==> replies[id] == if id in old(replies) then old(replies)[id] else Superseded)
    {
      for round := 0 to MAX_ATTEMPTS
        invariant round <= 1
        invariant round == 0 ==> writeQueue == old(writeQueue) && replies == old(replies)
        invariant round == 1 ==>
          && old(|writeQueue|) == CAPACITY
          && writeQueue == old(writeQueue)[1..]
          && replies.Keys == old(replies).Keys + (if old(writeQueue)[0].reply then {old(writeQueue)[0].id} else {})
          && (forall id :: id in replies ==> replies[id] == if id in old(replies) then old(replies)[id] else Superseded)
      {
        if |writeQueue| < CAPACITY {
          writeQueue := writeQueue + [req];
          return Success;
        }
        if writeQueue != [] {
          var dropped := writeQueue[0];
          writeQueue := writeQueue[1..];
          ReplyTo(dropped, Superseded);
        }
      }
      return QueueFull;
    }
  }

  /**
   One queued write: `results` is what successive dispatchWrite calls return, `cancelled` says
   after which attempt (counting from 1) the context ends the wait.
   */
  method DispatchWriteRetrying(results: seq<Result>, cancelled: set<nat>) returns (outcome: Outcome, attempts: nat)
    requires |results| >= WRITE_RETRIES
    ensures 1 <= attempts <= WRITE_RETRIES
    ensures forall i :: 0 <= i < attempts - 1 ==> results[i].Transient?
    ensures forall a: nat :: 1 <= a < attempts ==> a !in cancelled
    ensures outcome == Success <==> results[attempts - 1].Ok?
    ensures outcome == Cancelled <==> results[attempts - 1].Transient? && attempts < WRITE_RETRIES
    ensures outcome == Cancelled ==> attempts in cancelled
    ensures outcome in {Success, Failed, Cancelled}
  {
    attempts := 1;
    while true
      invariant 1 <= attempts <= WRITE_RETRIES
      invariant forall i :: 0 <= i < attempts - 1 ==> results[i].Transient?
      invariant forall a: nat :: 1 <= a < attempts ==> a !in cancelled
      decreases WRITE_RETRIES - attempts
    {
      var result := results[attempts - 1];
      if result.Ok? {
        return Success, attempts;
      }
      if !result.Transient? || attempts == WRITE_RETRIES {
        return Failed, attempts;
      }
      if attempts in cancelled {
        return Cancelled, attempts;
      }
      attempts := attempts + 1;
    }
  }

  /** The events are legal and lead from s to t. */
  ghost predicate Leads(s: State, es: seq<Event>, t: State) {
    Legal(s, es) && Run(s, es) == t
  }

  lemma First(s: State, e: Event, es: seq<Event>, t: State)
    requires Enabled(s, e) && Leads(Fire(s, e), es, t)
    ensures Leads(s, [e] + es, t)
  {
    assert ([e] + es)[1..] == es;
    hide Fire;
  }

  /** The call has a reply channel. */
  predicate IsWeb(s: State, id: Id) {
    id in s.calls && s.calls[id].web
  }

  /** The events of a call nothing interleaves with. */
  function OwnEvents(id: Id, full: bool): seq<Event> {
    if full then [Begin(id, false)] + ([TrySend(id)] + ([TryReceive(id)] + ([Tell(id)] + [TrySend(id)])))
    else [Begin(id, false)] + [TrySend(id)]
  }

  /** What the call does: its command joins the queue, from a full one the oldest command goes and is told. */
  ghost predicate Joins(s: State, id: Id, t: State) {
    var full := |s.line.queue| == CAPACITY;
    && t.line.queue == (if full then s.line.queue[1..] else s.line.queue) + [id]
    && id in t.line.place
    && t.told == (if full then s.told + [Answer(s.line.queue[0], Superseded)] else s.told)
    && t.channel.Keys == s.channel.Keys + (if full && IsWeb(s, s.line.queue[0]) then {s.line.queue[0]} else {})
    && (forall x :: x in t.channel ==> t.channel[x] == if x in s.channel then s.channel[x] else Superseded)
  }

  lemma CallWithDrop(s: State, id: Id) returns (t: State)
    requires Fifo(s) && id !in s.calls && |s.line.queue| == CAPACITY
    ensures Leads(s, OwnEvents(id, true), t) && Joins(s, id, t)
  {
    var s1 := Fire(s, Begin(id, false));
    var s2 := Fire(s1, TrySend(id));
    var s3 := Fire(s2, TryReceive(id));
    var s4 := Fire(s3, Tell(id));
    t := Fire(s4, TrySend(id));
    assert Joins(s, id, t);
    hide Fifo, Joins;
    LastEvent(s4, TrySend(id));
    var e3 := [Tell(id)] + [TrySend(id)];
    var e2 := [TryReceive(id)] + e3;
    hide Leads;
    First(s3, Tell(id), [TrySend(id)], t);
    First(s2, TryReceive(id), e3, t);
    First(s1, TrySend(id), e2, t);
    First(s, Begin(id, false), [TrySend(id)] + e2, t);
  }

  /** The undisturbed call is the run of its own events: the class and the step system agree. */
  lemma UndisturbedCall(s: State, id: Id) returns (t: State)
    requires Fifo(s) && id !in s.calls
    ensures Leads(s, OwnEvents(id, |s.line.queue| == CAPACITY), t) && Joins(s, id, t)
  {
    if |s.line.queue| == CAPACITY {
      t := CallWithDrop(s, id);
    } else {
      var s1 := Fire(s, Begin(id, false));
      t := Fire(s1, TrySend(id));
      LastEvent(s1, TrySend(id));
      hide Leads;
      First(s, Begin(id, false), [TrySend(id)], t);
    }
  }

  lemma LastEvent(s: State, e: Event)
    requires Enabled(s, e)
    ensures Leads(s, [e], Fire(s, e))
  {
    var t := Fire(s, e);
    assert Leads(t, [], t) && [e] + [] == [e];
    First(s, e, [], t);
  }
}
