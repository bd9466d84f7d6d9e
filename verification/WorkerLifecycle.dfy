/** ReadoutWorker across its two threads: the controlling thread (start, stop) and the
    loop. Every step is one atomic access to shared state, in any interleaving. Other
    threads may call isRunning(), getCounters() and rethrowException() at any time. */
module WorkerLifecycle {

  /** Where the loop thread is. Delivering(j) and Finishing(j): consumer j is next. */
  datatype LoopPc =
    | NotStarted | Top | Reading | Writing | Counting | Delivering(j: nat) | Storing
    | Finishing(j: nat) | StoppingRunning | Exited

  /** Where the controlling thread is: between calls, or inside start() or stop(). */
  datatype ControlPc = Idle | Launching | Joining | Closing

  datatype Action = Write | Consume(j: nat) | Finished(j: nat)

  datatype State = State(
    consumers: nat, hasListfile: bool,
    quit: bool, running: bool, exception: bool,
    joinable: bool, source: bool,
    loop: LoopPc, control: ControlPc,
    // history
    log: seq<Action>, loopsStarted: nat, stored: nat, rethrown: nat,
    started: bool, launchFailed: bool, stopReturned: bool)

  ghost predicate Init(s: State) {
    s == State(s.consumers, s.hasListfile, false, false, false, false, true, NotStarted, Idle,
               [], 0, 0, 0, false, false, false)
  }

  // ---- the controlling thread ----

  /** start(): throws, and changes nothing, if already started or without a source. */
  ghost predicate StartCall(s: State, t: State) {
    && s.control == Idle && !s.joinable && s.source
    && t == s.(running := true, control := Launching, started := true)
  }

  ghost predicate LaunchThread(s: State, t: State) {
    && s.control == Launching
    && t == s.(joinable := true, loop := Top, loopsStarted := s.loopsStarted + 1, control := Idle)
  }

  /** The constructor of the thread throws, and so does start(); running is left set. */
  ghost predicate FailToLaunch(s: State, t: State) {
    s.control == Launching && t == s.(launchFailed := true, control := Idle)
  }

  ghost predicate StopCall(s: State, t: State) {
    s.control == Idle && t == s.(quit := true, control := if s.joinable then Joining else Closing)
  }

  /** join() returns once the thread has exited. */
  ghost predicate Join(s: State, t: State) {
    s.control == Joining && s.loop == Exited && t == s.(joinable := false, control := Closing)
  }

  /** Drops the source, closes the listfile, returns from stop(). */
  ghost predicate Close(s: State, t: State) {
    s.control == Closing && t == s.(source := false, control := Idle, stopReturned := true)
  }

  ghost predicate Rethrow(s: State, t: State) {
    s.exception && t == s.(exception := false, rethrown := s.rethrown + 1)
  }

  ghost predicate ControlStep(s: State, t: State) {
    || StartCall(s, t) || LaunchThread(s, t) || FailToLaunch(s, t)
    || StopCall(s, t) || Join(s, t) || Close(s, t) || Rethrow(s, t)
  }

  // ---- the loop thread ----

  /** The test of the quit flag. */
  ghost predicate TopStep(s: State, t: State) {
    s.loop == Top && t == s.(loop := if s.quit then Finishing(0) else Reading)
  }

  /** A timeout, the end of the data, an error or a packet. */
  ghost predicate ReadStep(s: State, t: State) {
    && s.loop == Reading
    && (t.loop == Top || t.loop == Finishing(0) || t.loop == Storing
        || t.loop == if s.hasListfile then Writing else Counting)
    && t == s.(loop := t.loop)
  }

  ghost predicate WriteStep(s: State, t: State) {
    && s.loop == Writing
    && (t == s.(loop := Storing) || t == s.(loop := Counting, log := s.log + [Write]))
  }

  /** Counts the packet and delivers it only if it is valid. */
  ghost predicate CountStep(s: State, t: State) {
    && s.loop == Counting && (t.loop == Top || t.loop == Delivering(0)) && t == s.(loop := t.loop)
  }

  /** Calls the next consumer, which may throw. */
  ghost predicate DeliverStep(s: State, t: State) {
    && s.loop.Delivering?
    && if s.loop.j == s.consumers then t == s.(loop := Top)
       else (t.loop == Delivering(s.loop.j + 1) || t.loop == Storing)
            && t == s.(loop := t.loop, log := s.log + [Consume(s.loop.j)])
  }

  ghost predicate StoreStep(s: State, t: State) {
    s.loop == Storing && t == s.(exception := true, stored := s.stored + 1, loop := Finishing(0))
  }

  ghost predicate FinishStep(s: State, t: State) {
    && s.loop.Finishing?
    && t == if s.loop.j == s.consumers then s.(loop := StoppingRunning)
            else s.(log := s.log + [Finished(s.loop.j)], loop := Finishing(s.loop.j + 1))
  }

  ghost predicate ExitStep(s: State, t: State) {
    s.loop == StoppingRunning && t == s.(running := false, loop := Exited)
  }

  ghost predicate LoopStep(s: State, t: State) {
    || TopStep(s, t) || ReadStep(s, t) || WriteStep(s, t) || CountStep(s, t)
    || DeliverStep(s, t) || StoreStep(s, t) || FinishStep(s, t) || ExitStep(s, t)
  }

  ghost predicate Next(s: State, t: State) {
    ControlStep(s, t) || LoopStep(s, t)
  }

  ghost predicate Behavior(b: seq<State>) {
    && b != [] && Init(b[0])
    && forall i: nat | i + 1 < |b| :: Next(b[i], b[i + 1])
  }

  // ---- the invariant ----

  ghost function FinishedCalls(n: nat): seq<Action> { seq(n, (j: nat) => Finished(j)) }

  ghost predicate NoFinished(log: seq<Action>) {
    forall a | a in log :: !a.Finished?
  }

  /** The log is some writes and deliveries followed by finished() for the first n consumers. */
  ghost predicate EndsFinished(log: seq<Action>, n: nat) {
    && n <= |log|
    && NoFinished(log[..|log| - n])
    && log[|log| - n..] == FinishedCalls(n)
  }

  ghost predicate LoopActive(s: State) {
    s.loop != NotStarted && s.loop != Exited
  }

  ghost predicate PhaseInv(s: State) {
    && (s.loop == NotStarted <==> s.loopsStarted == 0)
    && s.loopsStarted <= 1
    && (s.started <==> s.loop != NotStarted || s.control == Launching || s.launchFailed)
    && (s.running <==> s.control == Launching || LoopActive(s) || (s.launchFailed && s.loop == NotStarted))
    && (s.control == Launching ==> s.loop == NotStarted && s.source && !s.joinable)
    && (LoopActive(s) ==> s.joinable)
    && (s.joinable ==> s.source && s.loop != NotStarted && s.control != Closing)
    && (s.control == Joining ==> s.joinable && s.quit)
    && (s.control == Closing ==> s.quit)
    && (s.loop == Exited && !s.joinable ==> s.control == Closing || !s.source)
    && (s.stopReturned ==> s.quit && !s.source)
  }

  ghost predicate ExceptionInv(s: State) {
    && s.stored <= 1 && s.rethrown + (if s.exception then 1 else 0) == s.stored
    && (s.stored > 0 ==> s.loop.Finishing? || s.loop == StoppingRunning || s.loop == Exited)
  }

  ghost predicate LogInv(s: State) {
    match s.loop
    case NotStarted => s.log == []
    case Finishing(j) => j <= s.consumers && EndsFinished(s.log, j)
    case StoppingRunning => EndsFinished(s.log, s.consumers)
    case Exited => EndsFinished(s.log, s.consumers)
    case Delivering(j) => j <= s.consumers && NoFinished(s.log)
    case _ => NoFinished(s.log)
  }

  ghost predicate Inv(s: State) {
    PhaseInv(s) && ExceptionInv(s) && LogInv(s)
  }

  lemma StartKeepsInv(s: State, t: State)
    requires Inv(s) && (StartCall(s, t) || LaunchThread(s, t) || FailToLaunch(s, t))
    ensures Inv(t) && t.consumers == s.consumers
  {
  }

  lemma StopKeepsInv(s: State, t: State)
    requires Inv(s) && (StopCall(s, t) || Join(s, t) || Close(s, t) || Rethrow(s, t))
    ensures Inv(t) && t.consumers == s.consumers
  {
  }

  lemma ControlKeepsInv(s: State, t: State)
    requires Inv(s) && ControlStep(s, t)
    ensures Inv(t) && t.consumers == s.consumers
  {
    hide Inv, StartCall, LaunchThread, FailToLaunch, StopCall, Join, Close, Rethrow;
    if StartCall(s, t) || LaunchThread(s, t) || FailToLaunch(s, t) {
      StartKeepsInv(s, t);
    } else {
      StopKeepsInv(s, t);
    }
  }

  /** Steps the loop thread may still take once the quit flag is set. */
  ghost function Rank(s: State): nat {
    match s.loop
    case Reading => 2 * s.consumers + 9
    case Writing => 2 * s.consumers + 8
    case Counting => 2 * s.consumers + 7
    case Delivering(j) => s.consumers + 6 + if j <= s.consumers then s.consumers - j else 0
    case Top => s.consumers + 5
    case Storing => s.consumers + 4
    case Finishing(j) => 2 + if j <= s.consumers then s.consumers - j else 0
    case StoppingRunning => 1
    case NotStarted => 0
    case Exited => 0
  }

  /** What every step of the loop thread keeps, and what it achieves once quit is set. */
  ghost predicate GoodLoopStep(s: State, t: State) {
    && Inv(t) && t.consumers == s.consumers && t.control == s.control && t.quit == s.quit
    && (s.quit ==> Rank(t) < Rank(s))
  }

  lemma TopKeeps(s: State, t: State)
    requires Inv(s) && TopStep(s, t)
    ensures GoodLoopStep(s, t)
  {
    NoneFinishedYet(s.log);
  }

  lemma ReadKeeps(s: State, t: State)
    requires Inv(s) && ReadStep(s, t)
    ensures GoodLoopStep(s, t)
  {
    NoneFinishedYet(s.log);
  }

  lemma WriteKeeps(s: State, t: State)
    requires Inv(s) && WriteStep(s, t)
    ensures GoodLoopStep(s, t)
  {
  }

  lemma CountKeeps(s: State, t: State)
    requires Inv(s) && CountStep(s, t)
    ensures GoodLoopStep(s, t)
  {
  }

  lemma DeliverKeeps(s: State, t: State)
    requires Inv(s) && DeliverStep(s, t)
    ensures GoodLoopStep(s, t)
  {
  }

  lemma StoreKeeps(s: State, t: State)
    requires Inv(s) && StoreStep(s, t)
    ensures GoodLoopStep(s, t)
  {
    NoneFinishedYet(s.log);
  }

  lemma FinishKeeps(s: State, t: State)
    requires Inv(s) && FinishStep(s, t)
    ensures GoodLoopStep(s, t)
  {
    if s.loop.j < s.consumers {
      OneMoreFinished(s.log, s.loop.j);
    }
  }

  lemma ExitKeeps(s: State, t: State)
    requires Inv(s) && ExitStep(s, t)
    ensures GoodLoopStep(s, t)
  {
  }

  lemma NoneFinishedYet(log: seq<Action>)
    ensures NoFinished(log) ==> EndsFinished(log, 0)
    ensures EndsFinished([], 0)
  {
    assert log[..|log| - 0] == log;
  }

  lemma OneMoreFinished(log: seq<Action>, j: nat)
    requires EndsFinished(log, j)
    ensures EndsFinished(log + [Finished(j)], j + 1)
  {
    var more := log + [Finished(j)];
    assert more[..|more| - (j + 1)] == log[..|log| - j];
    assert more[|more| - (j + 1)..] == log[|log| - j..] + [Finished(j)];
    assert FinishedCalls(j + 1) == FinishedCalls(j) + [Finished(j)];
  }

  lemma LoopKeepsInv(s: State, t: State)
    requires Inv(s) && LoopStep(s, t)
    ensures GoodLoopStep(s, t)
  {
    hide Inv, GoodLoopStep, TopStep, ReadStep, WriteStep, CountStep, DeliverStep, StoreStep, FinishStep, ExitStep;
    if TopStep(s, t) {
      TopKeeps(s, t);
    } else if ReadStep(s, t) {
      ReadKeeps(s, t);
    } else if WriteStep(s, t) {
      WriteKeeps(s, t);
    } else if CountStep(s, t) {
      CountKeeps(s, t);
    } else if DeliverStep(s, t) {
      DeliverKeeps(s, t);
    } else if StoreStep(s, t) {
      StoreKeeps(s, t);
    } else if FinishStep(s, t) {
      FinishKeeps(s, t);
    } else {
      ExitKeeps(s, t);
    }
  }

  lemma NextKeepsInv(s: State, t: State)
    requires Inv(s) && Next(s, t)
    ensures Inv(t) && t.consumers == s.consumers
  {
    if ControlStep(s, t) {
      ControlKeepsInv(s, t);
    } else {
      LoopKeepsInv(s, t);
    }
  }

  lemma {:induction false} InvHolds(b: seq<State>, i: nat)
    requires Behavior(b) && i < |b|
    ensures Inv(b[i]) && b[i].consumers == b[0].consumers
  {
    hide Inv, Next;
    if i > 0 {
      InvHolds(b, i - 1);
      NextKeepsInv(b[i - 1], b[i]);
    } else {
      InitInv(b[0]);
    }
  }

  lemma InitInv(s: State)
    requires Init(s)
    ensures Inv(s)
  {
  }

  /** Nothing more will be written or delivered once the loop has exited or cannot start. */
  ghost predicate Over(s: State) {
    s.loop == Exited || (s.loop == NotStarted && !s.source)
  }

  lemma NoLoopStepWhenOver(s: State, t: State)
    requires Over(s)
    ensures !LoopStep(s, t)
  {
  }

  lemma OverStep(s: State, t: State)
    requires PhaseInv(s) && Over(s) && Next(s, t)
    ensures Over(t) && t.log == s.log && t.loopsStarted == s.loopsStarted
  {
    hide LoopStep;
    NoLoopStepWhenOver(s, t);
  }

  lemma {:induction false} OverStaysOver(b: seq<State>, i: nat, j: nat)
    requires Behavior(b) && i <= j < |b| && Over(b[i])
    ensures Over(b[j]) && b[j].log == b[i].log && b[j].loopsStarted == b[i].loopsStarted
  {
    hide Over, Next, PhaseInv, ExceptionInv, LogInv;
    if i < j {
      OverStaysOver(b, i, j - 1);
      InvHolds(b, j - 1);
      OverStep(b[j - 1], b[j]);
    }
  }

  /** Once isRunning() is false after a start, finished() was called exactly once for every
      consumer, in order and after the last delivery, and no write or delivery follows. */
  lemma FinishedOnceAndLast(b: seq<State>, i: nat, j: nat)
    requires Behavior(b) && i <= j < |b| && b[i].started && !b[i].running
    ensures EndsFinished(b[i].log, b[0].consumers) && b[j].log == b[i].log
  {
    InvHolds(b, i);
    OverStaysOver(b, i, j);
  }

  /** After stop() has returned there are no further writes, deliveries or finished() calls,
      and no later start() runs the loop. isRunning() is false, with exactly one exception:
      the thread never ran because starting it failed. */
  lemma NothingAfterStop(b: seq<State>, i: nat, j: nat)
    requires Behavior(b) && i <= j < |b| && b[i].stopReturned
    ensures b[j].log == b[i].log && b[j].loopsStarted == b[i].loopsStarted
    ensures b[j].running <==> b[j].launchFailed && b[j].loopsStarted == 0
  {
    InvHolds(b, i);
    OverStaysOver(b, i, j);
    InvHolds(b, j);
  }

  /** It does happen: a worker whose thread could not be started is running for good, also
      after stop(). */
  lemma RunningWithoutThread(s: State) returns (b: seq<State>)
    requires Init(s)
    ensures Behavior(b) && b[0] == s && b[|b| - 1].stopReturned && b[|b| - 1].running
  {
    var started := s.(running := true, control := Launching, started := true);
    var failed := started.(launchFailed := true, control := Idle);
    var stopping := failed.(quit := true, control := Closing);
    var stopped := stopping.(source := false, control := Idle, stopReturned := true);
    assert StartCall(s, started) && FailToLaunch(started, failed);
    assert StopCall(failed, stopping) && Close(stopping, stopped);
    b := [s, started, failed, stopping, stopped];
  }

  /** A worker never runs its loop twice, and a stored exception is rethrown at most once,
      however many threads ask for it. */
  lemma AtMostOnce(b: seq<State>, i: nat)
    requires Behavior(b) && i < |b|
    ensures b[i].loopsStarted <= 1 && b[i].rethrown <= b[i].stored <= 1
  {
    InvHolds(b, i);
  }

  // ---- stop() returns ----

  /** While stop() waits in join() the loop thread can always move, every one of its steps
      brings it closer to its exit, and no other thread's step sets it back. */
  lemma JoinMakesProgress(s: State)
    requires Inv(s) && s.control == Joining
    ensures s.loop == Exited <==> Rank(s) == 0
    ensures s.loop == Exited ==> Join(s, s.(joinable := false, control := Closing))
    ensures s.loop != Exited ==> exists t :: LoopStep(s, t)
    ensures forall t | LoopStep(s, t) :: Rank(t) < Rank(s) && t.control == Joining
    ensures forall t | ControlStep(s, t) :: Rank(t) == Rank(s) && (Join(s, t) || t.control == Joining)
  {
    hide LoopStep, LogInv, ExceptionInv;
    if s.loop != Exited {
      var t := LoopCanMove(s);
    }
    forall t | LoopStep(s, t) ensures Rank(t) < Rank(s) && t.control == Joining {
      LoopKeepsInv(s, t);
    }
  }

  lemma LoopCanMove(s: State) returns (t: State)
    requires LogInv(s) && s.loop != Exited && s.loop != NotStarted
    ensures LoopStep(s, t)
  {
    match s.loop {
      case Top => t := s.(loop := if s.quit then Finishing(0) else Reading); assert TopStep(s, t);
      case Reading => t := s.(loop := Top); assert ReadStep(s, t);
      case Writing => t := s.(loop := Storing); assert WriteStep(s, t);
      case Counting => t := s.(loop := Top); assert CountStep(s, t);
      case Delivering(j) =>
        t := if j == s.consumers then s.(loop := Top)
             else s.(loop := Delivering(j + 1), log := s.log + [Consume(j)]);
        assert DeliverStep(s, t);
      case Storing => t := s.(exception := true, stored := s.stored + 1, loop := Finishing(0)); assert StoreStep(s, t);
      case Finishing(j) =>
        t := if j == s.consumers then s.(loop := StoppingRunning)
             else s.(log := s.log + [Finished(j)], loop := Finishing(j + 1));
        assert FinishStep(s, t);
      case StoppingRunning => t := s.(running := false, loop := Exited); assert ExitStep(s, t);
    }
  }

  ghost function LoopSteps(b: seq<State>): nat {
    if |b| <= 1 then 0
    else LoopSteps(b[..|b| - 1]) + if LoopStep(b[|b| - 2], b[|b| - 1]) then 1 else 0
  }

  /** stop() waits for at most 2 * consumers + 9 steps of the loop thread. */
  lemma {:induction false} JoinIsBounded(b: seq<State>)
    requires b != [] && (forall i: nat | i < |b| :: Inv(b[i]) && b[i].control == Joining)
    requires forall i: nat | i + 1 < |b| :: Next(b[i], b[i + 1])
    ensures LoopSteps(b) + Rank(b[|b| - 1]) <= Rank(b[0]) <= 2 * b[0].consumers + 9
  {
    if |b| > 1 {
      JoinIsBounded(b[..|b| - 1]);
      JoinMakesProgress(b[|b| - 2]);
    }
  }

  // ---- what the steps can do ----

  /** start() goes through: it can be called when there is no thread and the source is still there,
      and then the loop can begin. */
  lemma StartCanMove(s: State) returns (called: State, launched: State)
    requires s.control == Idle && !s.joinable && s.source
    ensures StartCall(s, called) && LaunchThread(called, launched)
    ensures launched.running && launched.loop == Top && launched.control == Idle && launched.log == s.log
  {
    called := s.(running := true, control := Launching, started := true);
    launched := called.(joinable := true, loop := Top, loopsStarted := s.loopsStarted + 1, control := Idle);
  }

  /** stop() goes through: it can be called between calls, and once the loop has exited it returns. */
  lemma StopCanMove(s: State) returns (called: State, joined: State, closed: State)
    requires s.control == Idle && (s.joinable ==> s.loop == Exited)
    ensures StopCall(s, called) && (if s.joinable then Join(called, joined) else joined == called)
    ensures Close(joined, closed) && closed.stopReturned && closed.quit && !closed.source && closed.log == s.log
  {
    called := s.(quit := true, control := if s.joinable then Joining else Closing);
    joined := if s.joinable then called.(joinable := false, control := Closing) else called;
    closed := joined.(source := false, control := Idle, stopReturned := true);
  }

  ghost predicate LoopPath(b: seq<State>) {
    b != [] && forall i: nat | i + 1 < |b| :: LoopStep(b[i], b[i + 1])
  }

  lemma IsLoopStep(s: State, t: State)
    requires TopStep(s, t) || ReadStep(s, t) || WriteStep(s, t) || CountStep(s, t) || DeliverStep(s, t)
    ensures LoopStep(s, t)
  {
  }

  lemma Prepend(s: State, b: seq<State>)
    requires b == [] || (LoopPath(b) && LoopStep(s, b[0]))
    ensures LoopPath([s] + b)
  {
    hide LoopStep;
    var c := [s] + b;
    assert forall i: nat | 0 < i < |c| :: c[i] == b[i - 1];
  }

  ghost function Deliveries(from: nat, n: nat): seq<Action>
    requires from <= n
  {
    seq(n - from, (j: nat) => Consume(from + j))
  }

  lemma FirstDelivery(from: nat, n: nat)
    requires from < n
    ensures Deliveries(from, n) == [Consume(from)] + Deliveries(from + 1, n)
  {
  }

  lemma {:induction false} DeliverPath(s: State) returns (b: seq<State>)
    requires s.loop.Delivering? && s.loop.j <= s.consumers
    ensures b != [] && LoopPath(b) && b[0] == s
    ensures b[|b| - 1] == s.(loop := Top, log := s.log + Deliveries(s.loop.j, s.consumers))
    decreases s.consumers - s.loop.j
  {
    hide LoopStep, LoopPath;
    var j := s.loop.j;
    if j == s.consumers {
      var t := s.(loop := Top);
      assert DeliverStep(s, t);
      IsLoopStep(s, t);
      assert t.log + Deliveries(j, j) == t.log;
      Prepend(t, []);
      assert [t] + [] == [t];
      Prepend(s, [t]);
      b := [s] + [t];
    } else {
      var t := s.(loop := Delivering(j + 1), log := s.log + [Consume(j)]);
      assert DeliverStep(s, t);
      IsLoopStep(s, t);
      hide Deliveries, DeliverStep;
      b := DeliverPath(t);
      FirstDelivery(j, s.consumers);
      Prepend(s, b);
      var behind := Deliveries(j + 1, s.consumers);
      assert s.log + [Consume(j)] + behind == s.log + ([Consume(j)] + behind);
      b := [s] + b;
    }
  }

  /** A packet can go its whole way: read, written if there is a listfile, counted, and given to every
      consumer in order, after which the loop is where it was. */
  lemma PacketReachesAll(s: State) returns (b: seq<State>)
    requires s.loop == Top && !s.quit
    ensures b != [] && LoopPath(b) && b[0] == s
    ensures b[|b| - 1] == s.(log := s.log + (if s.hasListfile then [Write] else []) + Deliveries(0, s.consumers))
  {
    hide LoopStep, LoopPath, Deliveries;
    var reading := s.(loop := Reading);
    b := PathFromReading(reading);
    assert TopStep(s, reading);
    IsLoopStep(s, reading);
    Prepend(s, b);
    b := [s] + b;
  }

  lemma PathFromReading(s: State) returns (b: seq<State>)
    requires s.loop == Reading
    ensures b != [] && LoopPath(b) && b[0] == s
    ensures b[|b| - 1]
         == s.(loop := Top, log := s.log + (if s.hasListfile then [Write] else []) + Deliveries(0, s.consumers))
  {
    hide LoopStep, LoopPath, Deliveries;
    if s.hasListfile {
      b := PathFromWriting(s.(loop := Writing));
      assert ReadStep(s, b[0]);
    } else {
      b := PathFromCounting(s.(loop := Counting));
      assert ReadStep(s, b[0]);
      assert s.log + [] == s.log;
    }
    IsLoopStep(s, b[0]);
    Prepend(s, b);
    b := [s] + b;
  }

  lemma PathFromWriting(s: State) returns (b: seq<State>)
    requires s.loop == Writing
    ensures b != [] && LoopPath(b) && b[0] == s
    ensures b[|b| - 1] == s.(loop := Top, log := s.log + [Write] + Deliveries(0, s.consumers))
  {
    hide LoopStep, LoopPath, Deliveries;
    b := PathFromCounting(s.(loop := Counting, log := s.log + [Write]));
    assert WriteStep(s, b[0]);
    IsLoopStep(s, b[0]);
    Prepend(s, b);
    b := [s] + b;
  }

  lemma PathFromCounting(s: State) returns (b: seq<State>)
    requires s.loop == Counting
    ensures b != [] && LoopPath(b) && b[0] == s
    ensures b[|b| - 1] == s.(loop := Top, log := s.log + Deliveries(0, s.consumers))
  {
    hide LoopStep, LoopPath, Deliveries;
    var delivering := s.(loop := Delivering(0));
    assert CountStep(s, delivering);
    IsLoopStep(s, delivering);
    b := DeliverPath(delivering);
    Prepend(s, b);
    b := [s] + b;
  }
}
