/** The queues of WorkerBase over whole runs: every worker gets a new one, and every packet that
    is kept, dropped, refused or discarded has its reason. */
module GilQueues {
  import opened GilProtocol
  import opened Packets
  import opened PyTap

  // ---- a new queue for every worker ----

  /** start() has the queue of the next worker in place and has not launched it yet. */
  ghost predicate Unborn(s: State) {
    && s.mutex.Some? && s.mutex.value in s.phases
    && (s.phases[s.mutex.value].Resetting? || s.phases[s.mutex.value].JoiningOld?
        || s.phases[s.mutex.value].Launching?)
  }

  ghost predicate FreshInv(s: State) {
    && (s.worker.Some? ==> s.queueUsed)
    && (!s.queueUsed ==> s.queues == [EMPTY_QUEUE])
    && (Unborn(s) ==>
          && s.queueUsed && |s.queues| > 0 && s.queues[|s.queues| - 1] == EMPTY_QUEUE
          && (s.worker.Some? ==> s.worker.value.queue < |s.queues| - 1))
    && (s.worker.Some? && s.worker.value.tapShut ==>
          s.worker.value.queue < |s.queues| && s.queues[s.worker.value.queue].shut)
  }

  lemma FreshByUse(s: State, t: State, c: Caller)
    requires Inv(s) && FreshInv(s) && UseGil(s, t, c)
    ensures FreshInv(t)
  {
    assert s.mutex == Some(c);
  }

  lemma FreshByStop(s: State, t: State, c: Caller)
    requires Inv(s) && FreshInv(s)
    requires Lock(s, t, c) || TakeGil(s, t, c) || SetQuit(s, t, c) || Join(s, t, c) || Leave(s, t, c)
    ensures FreshInv(t)
  {
    assert Lock(s, t, c) || Leave(s, t, c) || s.mutex == Some(c);
  }

  lemma FreshByDecide(s: State, t: State, c: Caller)
    requires Inv(s) && FreshInv(s) && Decide(s, t, c)
    ensures FreshInv(t)
  {
    assert s.mutex == Some(c);
  }

  lemma FreshByStart(s: State, t: State, c: Caller)
    requires Inv(s) && FreshInv(s) && (Reset(s, t, c) || JoinOld(s, t, c) || Launch(s, t, c))
    ensures FreshInv(t)
  {
    assert s.mutex == Some(c);
  }

  lemma FreshByCaller(s: State, t: State, c: Caller)
    requires Inv(s) && FreshInv(s) && CallerStep(s, t, c)
    ensures FreshInv(t)
  {
    hide Inv, FreshInv, Lock, Decide, TakeGil, UseGil, SetQuit, Join, Reset, JoinOld, Launch, Leave;
    if UseGil(s, t, c) {
      FreshByUse(s, t, c);
    } else if Decide(s, t, c) {
      FreshByDecide(s, t, c);
    } else if Reset(s, t, c) || JoinOld(s, t, c) || Launch(s, t, c) {
      FreshByStart(s, t, c);
    } else {
      FreshByStop(s, t, c);
    }
  }

  lemma NoWorkWhileUnborn(s: State, t: State)
    requires Inv(s) && WorkerStep(s, t)
    ensures !Unborn(s)
  {
    hide LockInv, QueueInv, Settled, Consumed, NoMorePuts;
    assert IsRunning(s);
  }

  lemma FreshByWorker(s: State, t: State)
    requires FreshInv(s) && WorkerStep(s, t) && !Unborn(s)
    ensures FreshInv(t)
  {
    hide FreshInv, TopStep, ReadStep, GilToPutStep, PutStep;
    hide GilToLogStep, LogStep, GilToFinishStep, FinishStep, EndStep;
    if PutStep(s, t) {
      FreshByPut(s, t);
    } else if TopStep(s, t) || ReadStep(s, t) || GilToPutStep(s, t) {
      FreshTowardsPut(s, t);
    } else {
      FreshTowardsExit(s, t);
    }
  }

  lemma FreshTowardsPut(s: State, t: State)
    requires FreshInv(s) && !Unborn(s) && (TopStep(s, t) || ReadStep(s, t) || GilToPutStep(s, t))
    ensures FreshInv(t)
  {
    hide IsFull;
  }

  lemma FreshTowardsExit(s: State, t: State)
    requires FreshInv(s) && !Unborn(s)
    requires GilToLogStep(s, t) || LogStep(s, t) || GilToFinishStep(s, t) || FinishStep(s, t) || EndStep(s, t)
    ensures FreshInv(t)
  {
  }

  lemma FreshByPut(s: State, t: State)
    requires FreshInv(s) && PutStep(s, t) && !Unborn(s)
    ensures FreshInv(t)
  {
    hide IsFull;
  }

  lemma FreshStep(s: State, t: State, m: Move)
    requires Inv(s) && FreshInv(s) && Next(s, t, m)
    ensures FreshInv(t)
  {
    hide CallerStep, WorkerStep;
    if m.Calling? {
      FreshByCaller(s, t, m.c);
    } else if m.Working? {
      NoWorkWhileUnborn(s, t);
      FreshByWorker(s, t);
    } else {
      FreshByPython(s, t, m);
    }
  }

  lemma FreshByPython(s: State, t: State, m: Move)
    requires Inv(s) && FreshInv(s) && Next(s, t, m) && !m.Calling? && !m.Working?
    ensures FreshInv(t)
  {
  }

  lemma {:induction false} FreshHolds(b: seq<State>, moves: seq<Move>, i: nat)
    requires Steps(b, moves) && Init(b[0]) && i < |b|
    ensures Inv(b[i]) && FreshInv(b[i])
  {
    hide Inv, Next, FreshInv;
    InitInv(b[0]);
    StepsKeep(b, moves, i);
    if i == 0 {
      assert FreshInv(b[0]) by { InitFresh(b[0]); }
    } else {
      FreshHolds(b, moves, i - 1);
      FreshStep(b[i - 1], b[i], moves[i - 1]);
    }
  }

  lemma InitFresh(s: State)
    requires Init(s)
    ensures FreshInv(s)
  {
  }

  ghost predicate Newborn(s: State) {
    s.worker.Some? && s.worker.value == Worker(Top, false, false, s.worker.value.queue, None, false)
  }

  /** A worker starts to run at one step only, with the queue that was in place before it. */
  lemma LaunchStep(s: State, t: State, m: Move)
    requires Next(s, t, m) && !IsRunning(s) && IsRunning(t)
    ensures Unborn(s) || !LockInv(s)
    ensures t.queues == s.queues && Newborn(t) && t.worker.value.queue == |s.queues| - 1
  {
    hide CallerStep, WorkerStep;
    if m.Calling? {
      LaunchByCaller(s, t, m.c);
    } else if m.Working? {
      WorkNeedsRunning(s, t);
    }
  }

  lemma WorkNeedsRunning(s: State, t: State)
    requires WorkerStep(s, t)
    ensures IsRunning(s)
  {
    hide Settled, Consumed, NoMorePuts;
  }

  lemma LaunchByCaller(s: State, t: State, c: Caller)
    requires CallerStep(s, t, c) && !IsRunning(s) && IsRunning(t)
    ensures Unborn(s) || !LockInv(s)
    ensures t.queues == s.queues && Newborn(t) && t.worker.value.queue == |s.queues| - 1
  {
    hide CallerStep, SameLogs, SameHand, Advances;
    CallerEffect(s, t, c);
    assert Launches(s, Calling(c));
    LaunchingLaunches(s, t, c);
  }

  lemma LaunchingLaunches(s: State, t: State, c: Caller)
    requires CallerStep(s, t, c) && c in s.phases && s.phases[c].Launching?
    ensures Launch(s, t, c)
  {
  }

  lemma {:induction false} QueuesOnlyGrow(b: seq<State>, moves: seq<Move>, j: nat, i: nat)
    requires Steps(b, moves) && Init(b[0]) && j <= i < |b|
    ensures |b[j].queues| <= |b[i].queues| && (b[j].queueUsed ==> b[i].queueUsed)
  {
    hide Next, Inv;
    if j < i {
      QueuesOnlyGrow(b, moves, j, i - 1);
      QueueCountStep(b[i - 1], b[i], moves[i - 1]);
    }
  }

  lemma QueueCountStep(s: State, t: State, m: Move)
    requires Next(s, t, m)
    ensures |s.queues| <= |t.queues| && (s.queueUsed ==> t.queueUsed)
    ensures !Unborn(s) && Unborn(t) && LockInv(s) && s.queueUsed ==> |t.queues| > |s.queues|
  {
    hide CallerStep, WorkerStep, LockInv, MutexMatches;
    if m.Calling? {
      QueueCountByCaller(s, t, m.c);
      if LockInv(s) {
        LockHolder(s, m.c);
      }
    } else if m.Working? {
      QueueCountByWorker(s, t);
    }
  }

  /** What the lock invariant says about one caller. */
  ghost predicate MutexMatches(s: State, c: Caller) {
    c in s.phases ==> (HoldsMutex(s.phases[c]) <==> s.mutex == Some(c))
  }

  lemma LockHolder(s: State, c: Caller)
    requires LockInv(s)
    ensures MutexMatches(s, c)
  {
  }

  lemma QueueCountByWorker(s: State, t: State)
    requires WorkerStep(s, t)
    ensures |t.queues| == |s.queues| && t.queueUsed == s.queueUsed && t.phases == s.phases && t.mutex == s.mutex
  {
    hide PutStep, IsFull;
    if PutStep(s, t) {
      QueueCountByPut(s, t);
    } else if TopStep(s, t) || ReadStep(s, t) || GilToPutStep(s, t) {
    } else {
    }
  }

  lemma QueueCountByPut(s: State, t: State)
    requires PutStep(s, t)
    ensures |t.queues| == |s.queues| && t.queueUsed == s.queueUsed && t.phases == s.phases && t.mutex == s.mutex
  {
    hide IsFull;
  }

  lemma QueueCountByCaller(s: State, t: State, c: Caller)
    requires CallerStep(s, t, c)
    ensures |s.queues| <= |t.queues| && (s.queueUsed ==> t.queueUsed)
    ensures !Unborn(s) && Unborn(t) && MutexMatches(s, c) && s.queueUsed ==> |t.queues| > |s.queues|
  {
    hide Lock, Decide, TakeGil, UseGil, SetQuit, Join, Reset, JoinOld, Launch, Leave, Unborn, MutexMatches;
    if UseGil(s, t, c) {
      QueueCountByUse(s, t, c);
    } else if Decide(s, t, c) {
      UnbornByDecide(s, t, c);
    } else if Reset(s, t, c) || JoinOld(s, t, c) || Launch(s, t, c) || Leave(s, t, c) {
      UnbornByStart(s, t, c);
    } else {
      UnbornByStop(s, t, c);
    }
  }

  lemma UnbornByStop(s: State, t: State, c: Caller)
    requires Lock(s, t, c) || TakeGil(s, t, c) || SetQuit(s, t, c) || Join(s, t, c)
    ensures t.queues == s.queues && t.queueUsed == s.queueUsed && (MutexMatches(s, c) && Unborn(t) ==> Unborn(s))
  {
  }

  lemma UnbornByDecide(s: State, t: State, c: Caller)
    requires Decide(s, t, c)
    ensures t.queues == s.queues && t.queueUsed == s.queueUsed && (MutexMatches(s, c) && Unborn(t) ==> Unborn(s))
  {
  }

  lemma UnbornByStart(s: State, t: State, c: Caller)
    requires Reset(s, t, c) || JoinOld(s, t, c) || Launch(s, t, c) || Leave(s, t, c)
    ensures t.queues == s.queues && t.queueUsed == s.queueUsed && (MutexMatches(s, c) && Unborn(t) ==> Unborn(s))
  {
  }

  lemma QueueCountByUse(s: State, t: State, c: Caller)
    requires UseGil(s, t, c)
    ensures |s.queues| <= |t.queues| && (s.queueUsed ==> t.queueUsed)
    ensures !Unborn(s) && Unborn(t) && MutexMatches(s, c) && s.queueUsed ==> |t.queues| > |s.queues|
  {
  }

  /** While the next worker is unborn, no worker so far has had its queue. */
  lemma {:induction false} NotYetUsed(b: seq<State>, moves: seq<Move>, j: nat, i: nat)
    requires Steps(b, moves) && Init(b[0]) && j <= i < |b| && Unborn(b[i]) && b[j].worker.Some?
    ensures b[j].worker.value.queue < |b[i].queues| - 1
  {
    hide Next;
    FreshHolds(b, moves, j);
    FreshHolds(b, moves, i);
    if j < i {
      FreshHolds(b, moves, i - 1);
      QueueCountStep(b[i - 1], b[i], moves[i - 1]);
      QueuesOnlyGrow(b, moves, j, i - 1);
      if Unborn(b[i - 1]) {
        NotYetUsed(b, moves, j, i - 1);
      }
    }
  }

  /** In every run a worker that starts to run has been told nothing yet, and its queue is the one
      that queue_ names: open, empty, without any history, and no earlier worker had it. */
  lemma NewWorkerNewQueue(b: seq<State>, moves: seq<Move>, i: nat)
    requires Steps(b, moves) && Init(b[0]) && i < |moves| && !IsRunning(b[i]) && IsRunning(b[i + 1])
    ensures
      var w := b[i + 1].worker.value;
      && w.pc == Top && !w.quit && !w.tapShut && w.hand == None && !w.error
      && w.queue == |b[i + 1].queues| - 1
      && b[i + 1].queues[w.queue] == QueueState([], false, 0, [], [], [])
      && forall j | 0 <= j <= i && b[j].worker.Some? :: b[j].worker.value.queue < w.queue
  {
    hide Next, UseGil;
    FreshHolds(b, moves, i);
    LaunchStep(b[i], b[i + 1], moves[i]);
    forall j | 0 <= j <= i && b[j].worker.Some?
      ensures b[j].worker.value.queue < |b[i].queues| - 1
    {
      NotYetUsed(b, moves, j, i);
    }
  }

  // ---- why packets are dropped, refused or discarded ----

  /** The step settles one more packet of a queue. */
  ghost predicate Settles(q: QueueState, q': QueueState) {
    |q'.given| == |q.given| + 1 && q'.given[..|q.given|] == q.given
  }

  ghost function LastFate(q: QueueState): Fate
    requires q.given != []
  {
    q.given[|q.given| - 1].fate
  }

  /** A fate and its reason: kept packets go behind the others into an open queue with room,
      packets are dropped only by a non-blocking tap at a full queue, and refused only by a queue
      that was shut down before or by an exception from put(), which is logged next. */
  ghost predicate FateHasReason(s: State, t: State, q: nat)
    requires q < |s.queues| && q < |t.queues| && Settles(s.queues[q], t.queues[q])
  {
    var old_, new_ := s.queues[q], t.queues[q];
    var rp := new_.given[|new_.given| - 1].rp;
    match LastFate(new_)
    case Kept =>
      !old_.shut && (s.capacity > 0 ==> |old_.content| < s.capacity) && new_.content == old_.content + [rp]
    case Dropped =>
      !old_.shut && !s.blocking && s.capacity > 0 && |old_.content| >= s.capacity && new_.content == old_.content
    case Refused =>
      && new_.content == old_.content
      && (old_.shut || (t.worker.Some? && t.worker.value.queue == q && t.worker.value.pc == WantGilToLog))
  }

  /** In every run whatever happens to a packet has its reason; in particular none is refused by a
      queue that was not shut down unless put() failed. */
  lemma FatesHaveReasons(b: seq<State>, moves: seq<Move>, i: nat, q: nat)
    requires Steps(b, moves) && Init(b[0]) && i < |moves| && q < |b[i].queues|
    ensures q < |b[i + 1].queues|
    ensures b[i + 1].queues[q].given != b[i].queues[q].given ==>
      Settles(b[i].queues[q], b[i + 1].queues[q]) && FateHasReason(b[i], b[i + 1], q)
  {
    hide Next, Inv;
    FreshHolds(b, moves, i);
    FateStep(b[i], b[i + 1], moves[i], q);
  }

  lemma FateStep(s: State, t: State, m: Move, q: nat)
    requires FreshInv(s) && Next(s, t, m) && q < |s.queues|
    ensures q < |t.queues|
    ensures t.queues[q].given != s.queues[q].given ==>
      Settles(s.queues[q], t.queues[q]) && FateHasReason(s, t, q)
  {
    hide CallerStep, WorkerStep, FreshInv, FateHasReason;
    if m.Calling? {
      GivenByCaller(s, t, m.c, q);
    } else if m.Working? {
      FateByWorker(s, t, q);
    }
  }

  lemma GivenByCaller(s: State, t: State, c: Caller, q: nat)
    requires CallerStep(s, t, c) && q < |s.queues|
    ensures q < |t.queues| && t.queues[q].given == s.queues[q].given
  {
    hide CallerStep, SameHand, Advances, Launches;
    CallerEffect(s, t, c);
    assert SameLog(s.queues[q], t.queues[q]);
  }

  lemma FateByWorker(s: State, t: State, q: nat)
    requires FreshInv(s) && WorkerStep(s, t) && q < |s.queues|
    ensures q < |t.queues|
    ensures t.queues[q].given != s.queues[q].given ==>
      Settles(s.queues[q], t.queues[q]) && FateHasReason(s, t, q)
  {
    hide PutStep, ReadStep;
    if PutStep(s, t) {
      FateByPut(s, t, q);
    } else if ReadStep(s, t) {
      FateByRead(s, t, q);
    }
  }

  lemma FateByRead(s: State, t: State, q: nat)
    requires FreshInv(s) && ReadStep(s, t) && q < |s.queues|
    ensures q < |t.queues|
    ensures t.queues[q].given != s.queues[q].given ==>
      Settles(s.queues[q], t.queues[q]) && FateHasReason(s, t, q)
  {
  }

  lemma FateByPut(s: State, t: State, q: nat)
    requires PutStep(s, t) && q < |s.queues|
    ensures q < |t.queues|
    ensures t.queues[q].given != s.queues[q].given ==>
      Settles(s.queues[q], t.queues[q]) && FateHasReason(s, t, q)
  {
  }

  /** Who shuts a queue down, and what becomes of its content: a stop() does with the one that
      queue_ names, and empties it if it is an immediate one, and a worker that finishes with its own. */
  ghost predicate ShutHasReason(s: State, t: State, m: Move, q: nat)
    requires q < |s.queues| && q < |t.queues|
  {
    || (m.Calling? && m.c in s.phases && s.phases[m.c].WithGil? && s.phases[m.c].kind.Stop? && q == |s.queues| - 1
        && t.queues[q].content == if s.phases[m.c].kind.immediate then [] else s.queues[q].content)
    || (m.Working? && s.worker.Some? && s.worker.value.pc == Finishing && s.worker.value.queue == q
        && t.queues[q].content == s.queues[q].content)
  }

  /** No step shuts a queue down, or takes packets out of it that nobody reads, for another reason. */
  lemma ShutsHaveReasons(s: State, t: State, m: Move, q: nat)
    requires Next(s, t, m) && q < |s.queues|
    ensures q < |t.queues|
    ensures t.queues[q].shut != s.queues[q].shut || t.queues[q].discarded != s.queues[q].discarded ==>
      t.queues[q].shut && ShutHasReason(s, t, m, q)
  {
    hide CallerStep, WorkerStep, ShutHasReason;
    if m.Calling? {
      ShutReasonByCaller(s, t, m, q);
    } else if m.Working? {
      ShutReasonByWorker(s, t, m, q);
    }
  }

  lemma ShutReasonByCaller(s: State, t: State, m: Move, q: nat)
    requires m.Calling? && CallerStep(s, t, m.c) && q < |s.queues|
    ensures q < |t.queues|
    ensures t.queues[q].shut != s.queues[q].shut || t.queues[q].discarded != s.queues[q].discarded ==>
      t.queues[q].shut && ShutHasReason(s, t, m, q)
  {
    assert t.queues == s.queues || UseGil(s, t, m.c);
  }

  lemma ShutReasonByWorker(s: State, t: State, m: Move, q: nat)
    requires m.Working? && WorkerStep(s, t) && q < |s.queues|
    ensures q < |t.queues|
    ensures t.queues[q].shut != s.queues[q].shut || t.queues[q].discarded != s.queues[q].discarded ==>
      t.queues[q].shut && ShutHasReason(s, t, m, q)
  {
    hide PutStep, FinishStep;
    if PutStep(s, t) {
      PutShutsNothing(s, t, q);
    } else if FinishStep(s, t) {
      FinishShuts(s, t, m, q);
    } else if TopStep(s, t) || ReadStep(s, t) || GilToPutStep(s, t) {
    } else {
    }
  }

  lemma PutShutsNothing(s: State, t: State, q: nat)
    requires PutStep(s, t) && q < |s.queues|
    ensures q < |t.queues| && t.queues[q].shut == s.queues[q].shut && t.queues[q].discarded == s.queues[q].discarded
  {
    hide IsFull;
  }

  lemma FinishShuts(s: State, t: State, m: Move, q: nat)
    requires m.Working? && FinishStep(s, t) && q < |s.queues|
    ensures q < |t.queues|
    ensures t.queues[q].shut != s.queues[q].shut || t.queues[q].discarded != s.queues[q].discarded ==>
      t.queues[q].shut && ShutHasReason(s, t, m, q)
  {
  }
}
