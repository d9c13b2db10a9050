/**
 What the write queue promises in the long run: while the worker stays up and keeps moving, every
 accepted command is dispatched or dropped, its answer is given, and no Write waits for ever.
 */
module WriteQueueLiveness {
  import opened WriteQueue

  // ---------------------------------------------------------------------------------------------
  // Two more invariants
  // ---------------------------------------------------------------------------------------------

  /** A taken command has been dispatched, or is about to be for the first time. */
  ghost predicate Tried(s: State) {
    forall id :: id in s.line.taken ==> Tries(s.dispatches, id) > 0 || s.worker == Busy(id, 1)
  }

  /** An answer to a call with a reply channel is in the channel until the call returns. */
  ghost predicate Delivered(s: State) {
    forall id :: Told(s.told, id) && id in s.calls && s.calls[id].web ==> id in s.channel || id in s.returned
  }

  lemma TriedStep(s: State, e: Event)
    requires Tried(s) && Enabled(s, e)
    ensures Tried(Fire(s, e))
  {
    hide Tries, Worked;
    if e.Attempt? {
      OneMoreTry(s.dispatches, Dispatch(s.worker.id, e.result));
    } else if e.DispatchInline? {
      OneMoreTry(s.dispatches, Dispatch(e.id, e.result));
      assert Fire(s, e).dispatches == s.dispatches + [Dispatch(e.id, e.result)];
    }
  }

  /** Only calls that were accepted are told anything. */
  lemma ToldAreCalls(s: State, id: Id)
    requires Fifo(s) && Answered(s) && Told(s.told, id)
    ensures id in s.calls && id in s.line.place
  {
    TakenOrDropped(s.line);
    hide Line.Valid, OnceEach;
    var a :| a in s.told && a.id == id;
  }

  lemma DeliveredTo(s: State, e: Event, id: Id)
    requires Enabled(s, e) && !e.Tell? && !e.Reply?
    requires Told(s.told, id) && id in s.calls && (s.calls[id].web ==> id in s.channel || id in s.returned)
    ensures
      var t := Fire(s, e);
      id in t.calls && (t.calls[id].web ==> id in t.channel || id in t.returned)
  {
    hide FireAttempt;
    if e.Attempt? {
      AttemptTouchesWorker(s, e.result);
    }
  }

  lemma DeliveredByTell(s: State, e: Event, id: Id)
    requires Fifo(s) && Answered(s) && Delivered(s) && Enabled(s, e) && (e.Tell? || e.Reply?)
    requires Told(Fire(s, e).told, id)
    ensures
      var t := Fire(s, e);
      id in t.calls ==> t.calls[id].web ==> id in t.channel || id in t.returned
  {
    var victim := if e.Tell? then s.calls[e.id].phase.victim else s.worker.id;
    var outcome := if e.Tell? then Superseded else s.worker.outcome;
    ToldAlso(s.told, Answer(victim, outcome));
    assert Fire(s, e).told == s.told + [Answer(victim, outcome)];
    if id in s.calls {
      hide Told, Fifo, Answered;
      assert s.calls[id].web ==> id in ReplyTo(s, victim, outcome).channel || id in s.returned;
    }
  }

  lemma DeliveredStep(s: State, e: Event)
    requires Fifo(s) && Answered(s) && Delivered(s) && Enabled(s, e)
    ensures Delivered(Fire(s, e))
  {
    var t := Fire(s, e);
    forall id | Told(t.told, id) && id in t.calls && t.calls[id].web ensures id in t.channel || id in t.returned {
      if e.Tell? || e.Reply? {
        DeliveredByTell(s, e, id);
      } else {
        assert t.told == s.told;
        ToldAreCalls(s, id);
        DeliveredTo(s, e, id);
      }
    }
  }

  // ---------------------------------------------------------------------------------------------
  // Endless runs
  // ---------------------------------------------------------------------------------------------

  /** An endless run from the start: state i, then event i. */
  ghost predicate Behaviour(b: nat -> State, ev: nat -> Event) {
    b(0) == INITIAL && forall i: nat :: Enabled(b(i), ev(i)) && b(i + 1) == Fire(b(i), ev(i))
  }

  predicate WorkerEvent(e: Event) {
    e.Take? || e.Attempt? || e.Retry? || e.GiveUp? || e.Reply?
  }

  /** The worker has nothing to do. */
  predicate AtRest(s: State) {
    (s.worker.Idle? || s.worker.Down?) && s.line.queue == []
  }

  predicate WorkerMoves(s: State, e: Event) {
    WorkerEvent(e) || AtRest(s)
  }

  /** Call c is not about to tell a dropped command, or does it now. */
  predicate TellerMoves(s: State, e: Event, c: Id) {
    e == Tell(c) || !(c in s.calls && s.calls[c].phase.Telling?)
  }

  ghost predicate WorksFrom(b: nat -> State, ev: nat -> Event, i: nat) {
    exists j :: j >= i && WorkerMoves(b(j), ev(j))
  }

  ghost predicate TellsFrom(b: nat -> State, ev: nat -> Event, i: nat, c: Id) {
    exists j :: j >= i && TellerMoves(b(j), ev(j), c)
  }

  /** The worker always moves again while there is work, up again if it was down, and so does every teller. */
  ghost predicate Fair(b: nat -> State, ev: nat -> Event) {
    && (forall i: nat :: WorksFrom(b, ev, i))
    && (forall i: nat, c: Id :: TellsFrom(b, ev, i, c))
  }

  lemma {:induction false} Always(b: nat -> State, ev: nat -> Event, i: nat)
    requires Behaviour(b, ev)
    ensures Inv(b(i)) && Tried(b(i)) && Delivered(b(i))
  {
    if i == 0 {
      assert Legal(INITIAL, []) && Run(INITIAL, []) == INITIAL;
      EveryRun(INITIAL);
    } else {
      Always(b, ev, i - 1);
      hide Fifo, Answered, Dispatched, Returned, Rounds, InOrder, Tried, Delivered, Fire;
      InvStep(b(i - 1), ev(i - 1));
      TriedStep(b(i - 1), ev(i - 1));
      DeliveredStep(b(i - 1), ev(i - 1));
    }
  }

  /** How far the worker has come; every one of its events moves it forward. */
  function Progress(s: State): int {
    8 * |s.line.taken| +
    match s.worker
    case Down => 0
    case Idle => 0
    case Busy(_, n) => 2 * n - 8
    case Backoff(_, n) => 2 * n - 7
    case Answering(_, _) => -1
  }

  lemma AttemptsInRange(s: State)
    requires Dispatched(s)
    ensures s.worker.Busy? ==> 1 <= s.worker.attempt <= WRITE_RETRIES
    ensures s.worker.Backoff? ==> 1 <= s.worker.attempt < WRITE_RETRIES
  {
    assert WorkerCounts(s.worker, s.dispatches);
    hide Tries, Worked;
  }

  lemma OthersLeaveWorker(s: State, e: Event)
    requires Enabled(s, e) && !WorkerEvent(e)
    ensures Fire(s, e).line.taken == s.line.taken
    ensures Fire(s, e).worker == s.worker || e.WorkerUp? || e.WorkerExit?
  {
    hide FireAttempt;
  }

  lemma ProgressStep(s: State, e: Event)
    requires Dispatched(s) && Enabled(s, e)
    ensures Progress(Fire(s, e)) >= Progress(s) + if WorkerEvent(e) then 1 else 0
  {
    AttemptsInRange(s);
    hide Dispatched, FireSend, FireReceive;
    if !WorkerEvent(e) {
      OthersLeaveWorker(s, e);
    }
  }

  lemma {:induction false} ProgressMonotone(b: nat -> State, ev: nat -> Event, i: nat, j: nat)
    requires Behaviour(b, ev) && i <= j
    ensures Progress(b(i)) <= Progress(b(j))
    decreases j - i
  {
    if i < j {
      Always(b, ev, i);
      ProgressStep(b(i), ev(i));
      hide Inv, Tried, Delivered, Progress, Fire;
      ProgressMonotone(b, ev, i + 1, j);
    }
  }

  /** The worker gets as far as asked, or runs out of work first. */
  lemma {:induction false} WorkerGetsThere(b: nat -> State, ev: nat -> Event, i: nat, goal: int) returns (j: nat)
    requires Behaviour(b, ev) && forall k: nat :: WorksFrom(b, ev, k)
    ensures j >= i && (Progress(b(j)) >= goal || AtRest(b(j)))
    decreases goal - Progress(b(i))
  {
    j := i;
    if Progress(b(i)) < goal {
      assert WorksFrom(b, ev, i);
      var k :| k >= i && WorkerMoves(b(k), ev(k));
      j := k;
      if !AtRest(b(k)) {
        ProgressMonotone(b, ev, i, k);
        Always(b, ev, k);
        ProgressStep(b(k), ev(k));
        hide Inv, Tried, Delivered, Progress, Fire;
        j := WorkerGetsThere(b, ev, k + 1, goal);
      }
    }
  }

  /** What has happened to a command stays so. */
  lemma HistoryStep(s: State, e: Event, id: Id)
    requires Fifo(s) && Enabled(s, e)
    ensures
      var t := Fire(s, e);
      && (id in s.line.place ==> id in t.line.place && t.line.place[id] == s.line.place[id])
      && (Told(s.told, id) ==> Told(t.told, id))
      && (id in s.line.dropped ==> id in t.line.dropped && t.line.dropped[id] == s.line.dropped[id])
      && (id in s.line.taken ==> id in t.line.taken)
  {
    if id in s.line.place {
      PlaceKept(s, e, id);
    }
    ToldGrows(s, e, id);
    assert Fire(s, e).line.taken == s.line.taken + if e.Take? then [s.line.queue[0]] else [];
    if id in s.line.dropped {
      DroppedKept(s, e, id);
    }
    hide Fifo, Fire, Told;
  }

  lemma ToldGrows(s: State, e: Event, id: Id)
    requires Enabled(s, e)
    ensures Told(s.told, id) ==> Told(Fire(s, e).told, id)
  {
    if e.Tell? {
      ToldAlso(s.told, Answer(s.calls[e.id].phase.victim, Superseded));
    } else if e.Reply? {
      ToldAlso(s.told, Answer(s.worker.id, s.worker.outcome));
    } else {
      assert Fire(s, e).told == s.told;
    }
    hide Told;
  }

  /** Only sends, drops and takes touch the line. */
  lemma LineKept(s: State, e: Event)
    requires Enabled(s, e) && !e.TrySend? && !e.TryReceive? && !e.Take?
    ensures Fire(s, e).line == s.line
  {
    hide FireAttempt;
    if e.Attempt? {
      AttemptTouchesWorker(s, e.result);
    }
  }

  lemma PlaceKept(s: State, e: Event, id: Id)
    requires Fifo(s) && Enabled(s, e) && id in s.line.place
    ensures id in Fire(s, e).line.place && Fire(s, e).line.place[id] == s.line.place[id]
  {
    hide Line.Valid;
    if !e.TrySend? && !e.TryReceive? && !e.Take? {
      hide Fire;
      LineKept(s, e);
    }
  }

  lemma DroppedKept(s: State, e: Event, id: Id)
    requires Fifo(s) && Enabled(s, e) && id in s.line.dropped
    ensures id in Fire(s, e).line.dropped && Fire(s, e).line.dropped[id] == s.line.dropped[id]
  {
    if e.TryReceive? && s.line.queue != [] {
      HeadLeaves(s.line);
    }
    hide Line.Valid;
    if !e.TrySend? && !e.TryReceive? && !e.Take? {
      hide Fire;
      LineKept(s, e);
    }
  }

  lemma {:induction false} HistoryKept(b: nat -> State, ev: nat -> Event, i: nat, j: nat, id: Id)
    requires Behaviour(b, ev) && i <= j
    ensures id in b(i).line.place ==> id in b(j).line.place && b(j).line.place[id] == b(i).line.place[id]
    ensures Told(b(i).told, id) ==> Told(b(j).told, id)
    ensures id in b(i).line.dropped ==>
      id in b(j).line.dropped && b(j).line.dropped[id] == b(i).line.dropped[id]
    ensures id in b(i).line.taken ==> id in b(j).line.taken
    decreases j - i
  {
    if i < j {
      Always(b, ev, i);
      hide Fifo, Answered, Dispatched, Returned, Rounds, InOrder, Tried, Delivered, Fire, Told;
      HistoryStep(b(i), ev(i), id);
      HistoryKept(b, ev, i + 1, j, id);
    }
  }

  // ---------------------------------------------------------------------------------------------
  // Every command is served
  // ---------------------------------------------------------------------------------------------

  /** The k-th command taken stands at place k or later. */
  lemma {:induction false} TakenPlaces(l: Line, k: nat)
    requires l.Valid() && k < |l.taken|
    ensures l.taken[k] in l.place && l.place[l.taken[k]] >= k
  {
    assert l.taken[k] in l.taken;
    if k > 0 {
      TakenPlaces(l, k - 1);
    }
  }

  /** Once more commands are taken than stand up to its place, a command has left the queue. */
  lemma LeftBehind(s: State, id: Id)
    requires Fifo(s) && Answered(s) && InOrder(s) && id in s.line.place && |s.line.taken| >= s.line.place[id] + 2
    ensures id in s.line.dropped || (id in s.line.taken && Told(s.told, id))
  {
    var l := s.line;
    var p := l.place[id];
    TakenPlaces(l, |l.taken| - 1);
    RemovedIsOut(l, id);
    hide Line.Valid, Told, OnceEach;
    if id in l.taken {
      assert !s.worker.Holds(id);
    }
  }

  lemma RemovedIsOut(l: Line, id: Id)
    requires l.Valid() && id in l.place
    ensures l.place[id] < l.removed ==> id in l.dropped || id in l.taken
    ensures l.queue == [] ==> l.place[id] < l.removed
    ensures forall k :: 0 <= k < |l.taken| ==> l.taken[k] in l.place && l.place[l.taken[k]] < l.removed
  {
    assert l.accepted[l.place[id]] == id;
    forall k | 0 <= k < |l.taken| ensures l.taken[k] in l.place && l.place[l.taken[k]] < l.removed {
      assert l.taken[k] in l.taken;
    }
  }

  lemma NothingLeft(s: State, id: Id)
    requires Fifo(s) && Answered(s) && id in s.line.place && AtRest(s)
    ensures id in s.line.dropped || (id in s.line.taken && Told(s.told, id))
  {
    RemovedIsOut(s.line, id);
    hide Line.Valid, Told, OnceEach;
    assert !s.worker.Holds(id);
  }

  /** The worker comes to every accepted command, unless a call drops it. */
  lemma WorkerReaches(b: nat -> State, ev: nat -> Event, i: nat, id: Id) returns (j: nat)
    requires Behaviour(b, ev) && (forall k: nat :: WorksFrom(b, ev, k)) && id in b(i).line.place
    ensures j >= i && (id in b(j).line.dropped || (id in b(j).line.taken && Told(b(j).told, id)))
  {
    var p := b(i).line.place[id];
    j := WorkerGetsThere(b, ev, i, 8 * (p + 2));
    HistoryKept(b, ev, i, j, id);
    Always(b, ev, j);
    hide Fifo, Answered, Dispatched, Returned, Rounds, InOrder, Tried, Delivered, Told;
    if AtRest(b(j)) {
      NothingLeft(b(j), id);
    } else {
      AttemptsInRange(b(j));
      assert |b(j).line.taken| >= p + 2;
      LeftBehind(b(j), id);
    }
  }

  /** The call that dropped a command tells it. */
  lemma DroppedIsTold(b: nat -> State, ev: nat -> Event, i: nat, id: Id) returns (j: nat)
    requires Behaviour(b, ev) && (forall k: nat, c: Id :: TellsFrom(b, ev, k, c)) && id in b(i).line.dropped
    ensures j >= i && Told(b(j).told, id)
  {
    var c := b(i).line.dropped[id];
    assert TellsFrom(b, ev, i, c);
    j :| j >= i && TellerMoves(b(j), ev(j), c);
    HistoryKept(b, ev, i, j, id);
    Always(b, ev, j);
    if !Told(b(j).told, id) {
      assert TellingTo(b(j), c, id);
      ToldAlso(b(j).told, Answer(id, Superseded));
      assert ev(j) == Tell(c) && b(j + 1).told == b(j).told + [Answer(id, Superseded)];
      j := j + 1;
    }
  }

  /**
   In every endless run in which the worker keeps moving and calls that have dropped a command tell it,
   every accepted command gets its answer, and unless it was dropped the worker has dispatched it.
   */
  lemma EveryCommandIsAnswered(b: nat -> State, ev: nat -> Event, i: nat, id: Id) returns (j: nat)
    requires Behaviour(b, ev) && Fair(b, ev) && id in b(i).line.place
    ensures j >= i && Told(b(j).told, id)
    ensures id in b(j).line.dropped || (id in b(j).line.taken && Tries(b(j).dispatches, id) > 0)
  {
    var k := WorkerReaches(b, ev, i, id);
    j := k;
    if id in b(k).line.dropped {
      j := DroppedIsTold(b, ev, k, id);
      HistoryKept(b, ev, k, j, id);
    } else {
      Always(b, ev, j);
      hide Fifo, Told, OnceEach, Tries;
      assert b(j).worker.Holds(id) ==> !Told(b(j).told, id);
    }
  }

  lemma {:induction false} CallKept(b: nat -> State, ev: nat -> Event, i: nat, j: nat, id: Id)
    requires Behaviour(b, ev) && i <= j && id in b(i).calls
    ensures id in b(j).calls && b(j).calls[id].web == b(i).calls[id].web
    decreases j - i
  {
    if i < j {
      assert b(i + 1) == Fire(b(i), ev(i));
      CallKept(b, ev, i + 1, j, id);
    }
  }

  /** No Write waits for ever: its answer comes, or its own context has ended the wait. */
  lemma EveryWriteGetsItsAnswer(b: nat -> State, ev: nat -> Event, i: nat, id: Id) returns (j: nat)
    requires Behaviour(b, ev) && Fair(b, ev) && Waiting(b(i), id)
    ensures j >= i && (id in b(j).channel || id in b(j).returned)
  {
    Always(b, ev, i);
    assert id in b(i).line.place;
    j := EveryCommandIsAnswered(b, ev, i, id);
    CallKept(b, ev, i, j, id);
    Always(b, ev, j);
    hide Inv, Told, Tried;
  }

}
